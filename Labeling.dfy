/**
 * The label assigner of app/utils/scoring.py (labelize_recipes).
 *
 * Every recipe is given as its ingredient string ("potato, onion, coconut milk").
 * The string is normalised once: each ", " becomes ",", the result is wrapped in
 * commas and lower-cased. A preference term matches a recipe when the term,
 * lower-cased and wrapped in commas, is a substring of that normalised string,
 * so that "milk" never matches "coconut milk". Each liked term that matches adds
 * one to the recipe's score and each disliked term that matches subtracts one;
 * a term listed twice counts twice. An optional flag collapses every score to
 * its sign.
 */
module Labeling {

  /* ---------------------------------------------------------------------- */
  /* Text primitives                                                        */
  /* ---------------------------------------------------------------------- */

  /** Lower-casing of one character, restricted to ASCII letters. */
  function LowerChar(c: char): (r: char)
    ensures 'A' <= c <= 'Z' ==> r as int == c as int + 32
    ensures !('A' <= c <= 'Z') ==> r == c
    ensures !('A' <= r <= 'Z')
  {
    if 'A' <= c <= 'Z' then (c as int + 32) as char else c
  }

  /** Character-wise lower-casing of a string. */
  function Lower(s: string): (r: string)
    ensures |r| == |s|
    ensures forall i :: 0 <= i < |s| ==> r[i] == LowerChar(s[i])
  {
    seq(|s|, i requires 0 <= i < |s| => LowerChar(s[i]))
  }

  /** Lower-casing leaves a lower-cased string unchanged. */
  lemma LowerIdempotent(s: string)
    ensures Lower(Lower(s)) == Lower(s)
  {
  }

  /** The string holds ", " somewhere. */
  predicate HasSeparator(s: string) {
    exists i :: 0 <= i < |s| - 1 && s[i] == ',' && s[i + 1] == ' '
  }

  /**
   * Replaces every ", " by ",", scanning left to right without overlaps,
   * as Python's str.replace(", ", ",") does.
   */
  function CollapseSeparators(s: string): (r: string)
    ensures |r| <= |s|
  {
    if |s| == 0 then ""
    else if |s| >= 2 && s[0] == ',' && s[1] == ' ' then "," + CollapseSeparators(s[2..])
    else [s[0]] + CollapseSeparators(s[1..])
  }

  /** A string without ", " passes through the replacement unchanged. */
  lemma {:induction false} CollapseWithoutSeparator(s: string)
    requires !HasSeparator(s)
    ensures CollapseSeparators(s) == s
  {
    if |s| > 0 {
      assert !(|s| >= 2 && s[0] == ',' && s[1] == ' ');
      assert !HasSeparator(s[1..]) by {
        forall i | 0 <= i < |s[1..]| - 1 ensures !(s[1..][i] == ',' && s[1..][i + 1] == ' ') {
          assert s[1..][i] == s[i + 1] && s[1..][i + 1] == s[i + 2];
        }
      }
      CollapseWithoutSeparator(s[1..]);
      assert s == [s[0]] + s[1..];
    }
  }

  /** The normalised ingredient string a recipe is matched against, wrapped in commas. */
  function Normalize(recipe: string): (r: string)
    ensures |r| >= 2 && r[0] == ',' && r[|r| - 1] == ','
  {
    Lower("," + CollapseSeparators(recipe) + ",")
  }

  /** The normalised string holds no upper-case letter. */
  lemma NormalizeIsLower(recipe: string)
    ensures Lower(Normalize(recipe)) == Normalize(recipe)
  {
    LowerIdempotent("," + CollapseSeparators(recipe) + ",");
  }

  /** `needle` occurs in `hay` starting at position `i`. */
  predicate OccursAt(hay: string, needle: string, i: int) {
    0 <= i && i + |needle| <= |hay| && hay[i..i + |needle|] == needle
  }

  /** Substring test (Python's `needle in hay`). */
  predicate Contains(hay: string, needle: string)
    ensures Contains(hay, needle) ==> |needle| <= |hay|
  {
    exists i :: 0 <= i <= |hay| - |needle| && OccursAt(hay, needle, i)
  }

  /** A preference term as it is searched for: lower-cased and wrapped in commas. */
  function Delimit(term: string): (r: string)
    ensures |r| == |term| + 2
  {
    "," + Lower(term) + ","
  }

  /** The term matches the recipe whose normalised string is `normalized`. */
  predicate Matches(normalized: string, term: string)
    ensures Matches(normalized, term) ==> |term| + 2 <= |normalized|
  {
    Contains(normalized, Delimit(term))
  }

  /** Matching ignores the case of the term. */
  lemma MatchIgnoresTermCase(normalized: string, term: string)
    ensures Matches(normalized, Lower(term)) <==> Matches(normalized, term)
  {
    LowerIdempotent(term);
  }

  /**
   * An empty term is not ignored: it matches exactly the recipes whose
   * normalised string holds ",,", such as the empty recipe and "a, ".
   */
  lemma EmptyTermMatches(normalized: string)
    ensures Matches(normalized, "") <==> Contains(normalized, ",,")
    ensures Matches(Normalize(""), "") && Matches(Normalize("a, "), "")
  {
    assert Delimit("") == ",,";
    assert OccursAt(Normalize(""), ",,", 0);
    assert CollapseSeparators("a, ") == "a,";
    assert OccursAt(Normalize("a, "), ",,", 2);
  }

  /* ---------------------------------------------------------------------- */
  /* Scores                                                                 */
  /* ---------------------------------------------------------------------- */

  /** Number of entries of `terms`, counted with repetition, that match. */
  function CountMatches(normalized: string, terms: seq<string>): (n: nat)
    ensures n <= |terms|
  {
    if terms == [] then 0
    else
      CountMatches(normalized, terms[..|terms| - 1])
      + (if Matches(normalized, terms[|terms| - 1]) then 1 else 0)
  }

  /** The score of one recipe: liked matches minus disliked matches. */
  function RecipeScore(recipe: string, liked: seq<string>, disliked: seq<string>): (s: int)
    ensures -|disliked| <= s <= |liked|
  {
    var normalized := Normalize(recipe);
    CountMatches(normalized, liked) - CountMatches(normalized, disliked)
  }

  function Abs(x: int): nat {
    if x < 0 then -x else x
  }

  /** `score / abs(score).replace(0, 1)`: the sign of the score. */
  function ThresholdScore(score: int): (r: int)
    ensures -1 <= r <= 1
    ensures r == 0 <==> score == 0
    ensures r > 0 <==> score > 0
  {
    score / (if score == 0 then 1 else Abs(score))
  }

  /** The scores labelize_recipes returns, one per recipe and in input order. */
  function Labels(recipes: seq<string>, liked: seq<string>, disliked: seq<string>,
                  threshAffinityScore: bool): (scores: seq<int>)
    ensures |scores| == |recipes|
  {
    seq(|recipes|, i requires 0 <= i < |recipes| =>
      var s := RecipeScore(recipes[i], liked, disliked);
      if threshAffinityScore then ThresholdScore(s) else s)
  }

  /**
   * One vectorised update of the score series: adds `delta` to the score of
   * every recipe that `term` matches and leaves the others alone.
   */
  method AddMatches(score: array<int>, ingredients: seq<string>, term: string, delta: int)
    requires score.Length == |ingredients|
    modifies score
    ensures forall r :: 0 <= r < |ingredients| ==>
      score[r] == old(score[r]) + (if Matches(ingredients[r], term) then delta else 0)
  {
    for r := 0 to |ingredients|
      invariant forall q :: 0 <= q < r ==>
        score[q] == old(score[q]) + (if Matches(ingredients[q], term) then delta else 0)
      invariant forall q :: r <= q < |ingredients| ==> score[q] == old(score[q])
    {
      if Matches(ingredients[r], term) {
        score[r] := score[r] + delta;
      }
    }
  }

  /**
   * labelize_recipes: a score accumulator starting at zero for every recipe,
   * one pass per liked term adding its matches, one pass per disliked term
   * subtracting them, then the optional sign collapse.
   */
  method LabelizeRecipes(recipes: seq<string>, likedIngredients: seq<string>,
                         dislikedIngredients: seq<string>, threshAffinityScore: bool)
    returns (affinityScore: seq<int>)
    ensures affinityScore == Labels(recipes, likedIngredients, dislikedIngredients, threshAffinityScore)
  {
    var score := new int[|recipes|](_ => 0);
    var ingredients := seq(|recipes|, r requires 0 <= r < |recipes| => Normalize(recipes[r]));

    for t := 0 to |likedIngredients|
      invariant forall r :: 0 <= r < |recipes| ==>
        score[r] == CountMatches(ingredients[r], likedIngredients[..t])
    {
      assert likedIngredients[..t + 1][..t] == likedIngredients[..t];
      AddMatches(score, ingredients, likedIngredients[t], 1);
    }
    assert likedIngredients[..|likedIngredients|] == likedIngredients;

    for t := 0 to |dislikedIngredients|
      invariant forall r :: 0 <= r < |recipes| ==>
        score[r] == CountMatches(ingredients[r], likedIngredients)
                    - CountMatches(ingredients[r], dislikedIngredients[..t])
    {
      assert dislikedIngredients[..t + 1][..t] == dislikedIngredients[..t];
      AddMatches(score, ingredients, dislikedIngredients[t], -1);
    }
    assert dislikedIngredients[..|dislikedIngredients|] == dislikedIngredients;

    var raw := score[..];
    if threshAffinityScore {
      affinityScore := seq(|raw|, r requires 0 <= r < |raw| => ThresholdScore(raw[r]));
    } else {
      affinityScore := raw;
    }
  }

  /* ---------------------------------------------------------------------- */
  /* Properties of the scores                                               */
  /* ---------------------------------------------------------------------- */

  /** Counting over a concatenation of term lists adds the two counts. */
  lemma {:induction false} CountMatchesAppend(normalized: string, a: seq<string>, b: seq<string>)
    ensures CountMatches(normalized, a + b) == CountMatches(normalized, a) + CountMatches(normalized, b)
    decreases |b|
  {
    if b == [] {
      assert a + b == a;
    } else {
      var b' := b[..|b| - 1];
      assert (a + b)[..|a + b| - 1] == a + b';
      CountMatchesAppend(normalized, a, b');
    }
  }

  /**
   * The count is the number of positions of `terms` holding a matching term:
   * every occurrence of a term counts, duplicates included.
   */
  lemma {:induction false} CountMatchesCountsOccurrences(normalized: string, terms: seq<string>)
    ensures CountMatches(normalized, terms)
            == |set i | 0 <= i < |terms| && Matches(normalized, terms[i])|
  {
    if terms != [] {
      var n := |terms| - 1;
      var prefix := terms[..n];
      CountMatchesCountsOccurrences(normalized, prefix);
      var before := set i | 0 <= i < |prefix| && Matches(normalized, prefix[i]);
      var after := set i | 0 <= i < |terms| && Matches(normalized, terms[i]);
      if Matches(normalized, terms[n]) {
        assert after == before + {n};
      } else {
        assert after == before;
      }
    }
  }

  /** Taking one entry out of a term list removes exactly that entry's contribution. */
  lemma CountMatchesRemove(normalized: string, b: seq<string>, j: int)
    requires 0 <= j < |b|
    ensures CountMatches(normalized, b)
            == CountMatches(normalized, b[..j] + b[j + 1..]) + CountMatches(normalized, [b[j]])
  {
    assert b == (b[..j] + [b[j]]) + b[j + 1..];
    CountMatchesAppend(normalized, b[..j] + [b[j]], b[j + 1..]);
    CountMatchesAppend(normalized, b[..j], [b[j]]);
    CountMatchesAppend(normalized, b[..j], b[j + 1..]);
  }

  /** Reordering the terms of a preference list never changes the count. */
  lemma {:induction false} CountMatchesOrderFree(normalized: string, a: seq<string>, b: seq<string>)
    requires multiset(a) == multiset(b)
    ensures CountMatches(normalized, a) == CountMatches(normalized, b)
    decreases |a|
  {
    if a == [] {
      assert |multiset(b)| == 0;
    } else {
      var x := a[|a| - 1];
      var a' := a[..|a| - 1];
      assert a == a' + [x];
      assert x in multiset(b);
      var j :| 0 <= j < |b| && b[j] == x;
      var b' := b[..j] + b[j + 1..];
      assert b == b[..j] + [x] + b[j + 1..];
      assert multiset(a') == multiset(a) - multiset{x};
      assert multiset(b') == multiset(b) - multiset{x};
      CountMatchesOrderFree(normalized, a', b');
      CountMatchesRemove(normalized, b, j);
      CountMatchesAppend(normalized, a', [x]);
    }
  }

  /** Listing a liked term twice doubles its contribution to the score. */
  lemma RepeatedTermCountsTwice(recipe: string, liked: seq<string>, disliked: seq<string>, term: string)
    ensures RecipeScore(recipe, liked + [term, term], disliked) - RecipeScore(recipe, liked, disliked)
            == 2 * (RecipeScore(recipe, liked + [term], disliked) - RecipeScore(recipe, liked, disliked))
  {
    var n := Normalize(recipe);
    CountMatchesAppend(n, liked, [term, term]);
    CountMatchesAppend(n, liked, [term]);
    CountMatchesAppend(n, [term], [term]);
    assert [term] + [term] == [term, term];
  }

  /** With no liked and no disliked term every recipe scores 0, with or without the flag. */
  lemma NoPreferencesScoreZero(recipes: seq<string>, threshAffinityScore: bool)
    ensures forall i :: 0 <= i < |recipes| ==> Labels(recipes, [], [], threshAffinityScore)[i] == 0
  {
  }

  /** The sign collapse is odd: it commutes with negation. */
  lemma ThresholdScoreOdd(score: int)
    ensures ThresholdScore(-score) == -ThresholdScore(score)
  {
  }

  /** Swapping the liked and disliked lists negates every score. */
  lemma SwapNegatesScores(recipes: seq<string>, liked: seq<string>, disliked: seq<string>,
                          threshAffinityScore: bool)
    ensures forall i :: 0 <= i < |recipes| ==>
      Labels(recipes, disliked, liked, threshAffinityScore)[i]
      == -Labels(recipes, liked, disliked, threshAffinityScore)[i]
  {
    forall i | 0 <= i < |recipes|
      ensures Labels(recipes, disliked, liked, threshAffinityScore)[i]
              == -Labels(recipes, liked, disliked, threshAffinityScore)[i]
    {
      ThresholdScoreOdd(RecipeScore(recipes[i], liked, disliked));
    }
  }

  /** Every score, with or without the flag, lies between -|disliked| and |liked|. */
  lemma ScoreBounds(recipes: seq<string>, liked: seq<string>, disliked: seq<string>,
                    threshAffinityScore: bool)
    ensures forall i :: 0 <= i < |recipes| ==>
      -|disliked| <= Labels(recipes, liked, disliked, threshAffinityScore)[i] <= |liked|
  {
  }

  /** With the flag set every score is the sign of the unflagged score. */
  lemma ThresholdCollapsesToSign(recipes: seq<string>, liked: seq<string>, disliked: seq<string>)
    ensures forall i :: 0 <= i < |recipes| ==>
      var raw := Labels(recipes, liked, disliked, false)[i];
      var flagged := Labels(recipes, liked, disliked, true)[i];
      (raw == 0 ==> flagged == 0) && (raw > 0 ==> flagged == 1) && (raw < 0 ==> flagged == -1)
  {
  }

  /* ---------------------------------------------------------------------- */
  /* Whole-ingredient matching                                              */
  /* ---------------------------------------------------------------------- */

  /** The catalog's ingredient string: the ingredients joined by `sep`. */
  function Join(items: seq<string>, sep: string): string
    decreases |items|
  {
    if items == [] then ""
    else if |items| == 1 then items[0]
    else items[0] + sep + Join(items[1..], sep)
  }

  /** ",a,b,c,": every ingredient followed by a comma, the whole preceded by one. */
  function Delimited(items: seq<string>): (r: string)
    ensures |r| >= 1 && r[0] == ',' && r[|r| - 1] == ','
    decreases |items|
  {
    if items == [] then "," else "," + items[0] + Delimited(items[1..])
  }

  predicate CommaFree(s: string) {
    forall i :: 0 <= i < |s| ==> s[i] != ','
  }

  predicate AllCommaFree(items: seq<string>) {
    forall j :: 0 <= j < |items| ==> CommaFree(items[j])
  }

  lemma {:induction false} CollapseCommaFreePrefix(x: string, t: string)
    requires CommaFree(x)
    ensures CollapseSeparators(x + t) == x + CollapseSeparators(t)
    decreases |x|
  {
    if x != [] {
      assert (x + t)[1..] == x[1..] + t;
      CollapseCommaFreePrefix(x[1..], t);
    } else {
      assert x + t == t;
    }
  }

  /** Collapsing ", " in a ", "-joined list of comma-free ingredients gives the ","-joined list. */
  lemma {:induction false} CollapseJoin(items: seq<string>)
    requires AllCommaFree(items)
    ensures CollapseSeparators(Join(items, ", ")) == Join(items, ",")
    decreases |items|
  {
    if items == [] {
    } else if |items| == 1 {
      CollapseCommaFreePrefix(items[0], "");
      assert items[0] + "" == items[0];
    } else {
      var rest := Join(items[1..], ", ");
      assert Join(items, ", ") == items[0] + (", " + rest);
      CollapseCommaFreePrefix(items[0], ", " + rest);
      assert (", " + rest)[2..] == rest;
      CollapseJoin(items[1..]);
    }
  }

  lemma {:induction false} WrappedJoinIsDelimited(items: seq<string>)
    requires |items| > 0
    ensures "," + Join(items, ",") + "," == Delimited(items)
    decreases |items|
  {
    if |items| == 1 {
      assert items[1..] == [];
    } else {
      WrappedJoinIsDelimited(items[1..]);
    }
  }

  lemma LowerConcat(a: string, b: string)
    ensures Lower(a + b) == Lower(a) + Lower(b)
  {
    assert forall i :: 0 <= i < |a + b| ==> Lower(a + b)[i] == (Lower(a) + Lower(b))[i];
  }

  function LowerAll(items: seq<string>): (r: seq<string>)
    ensures |r| == |items|
  {
    seq(|items|, j requires 0 <= j < |items| => Lower(items[j]))
  }

  lemma {:induction false} LowerDelimited(items: seq<string>)
    ensures Lower(Delimited(items)) == Delimited(LowerAll(items))
    decreases |items|
  {
    if items == [] {
      assert Lower(",") == ",";
    } else {
      LowerConcat("," + items[0], Delimited(items[1..]));
      LowerConcat(",", items[0]);
      assert Lower(",") == ",";
      LowerDelimited(items[1..]);
      assert LowerAll(items)[1..] == LowerAll(items[1..]);
    }
  }

  /** A delimited occurrence at the very start of ",x" + tail is x itself. */
  lemma OccurrenceAtStart(x: string, tail: string, t: string)
    requires CommaFree(x) && CommaFree(t) && |tail| >= 1 && tail[0] == ','
    requires OccursAt("," + x + tail, "," + t + ",", 0)
    ensures t == x
  {
    var hay := "," + x + tail;
    var needle := "," + t + ",";
    assert hay[..|needle|] == needle;
    assert hay[1 + |x|] == ',';
    assert hay[1 + |t|] == ',';
    assert forall p :: 1 <= p <= |x| ==> hay[p] == x[p - 1];
    assert forall p :: 1 <= p <= |t| ==> hay[p] == t[p - 1];
    assert |t| == |x|;
    assert hay[1..1 + |t|] == t;
  }

  /** A delimited occurrence past the start of ",x" + tail lies within tail. */
  lemma OccurrenceAfterStart(x: string, tail: string, t: string, i: int)
    requires CommaFree(x) && i > 0
    requires OccursAt("," + x + tail, "," + t + ",", i)
    ensures OccursAt(tail, "," + t + ",", i - 1 - |x|)
  {
    var hay := "," + x + tail;
    var needle := "," + t + ",";
    assert hay[i..i + |needle|] == needle;
    assert hay[i] == ',';
    assert forall p :: 1 <= p <= |x| ==> hay[p] == x[p - 1];
    assert i > |x|;
    var off := 1 + |x|;
    assert hay[off..] == tail;
    assert tail[i - off..i - off + |needle|] == needle;
  }

  /** An occurrence of ",t," in the delimited list is exactly one of its ingredients. */
  lemma {:induction false} DelimitedOccurrenceIsMember(items: seq<string>, t: string, i: int)
    requires AllCommaFree(items) && CommaFree(t)
    requires OccursAt(Delimited(items), "," + t + ",", i)
    ensures t in items
    decreases |items|
  {
    if items == [] {
      assert false;
    } else {
      var x := items[0];
      var tail := Delimited(items[1..]);
      assert Delimited(items) == "," + x + tail;
      if i == 0 {
        OccurrenceAtStart(x, tail, t);
      } else {
        OccurrenceAfterStart(x, tail, t, i);
        DelimitedOccurrenceIsMember(items[1..], t, i - 1 - |x|);
      }
    }
  }

  /** Every ingredient of the list occurs, delimited, in the delimited list. */
  lemma {:induction false} MemberOccursDelimited(items: seq<string>, j: int)
    requires 0 <= j < |items|
    ensures Contains(Delimited(items), "," + items[j] + ",")
    decreases |items|
  {
    var needle := "," + items[j] + ",";
    var x := items[0];
    var tail := Delimited(items[1..]);
    var hay := Delimited(items);
    assert hay == "," + x + tail;
    if j == 0 {
      assert hay[..|needle|] == needle;
      assert OccursAt(hay, needle, 0);
    } else {
      MemberOccursDelimited(items[1..], j - 1);
      var k :| 0 <= k <= |tail| - |needle| && OccursAt(tail, needle, k);
      OccurrenceShift(x, tail, needle, k);
    }
  }

  /** An occurrence in tail is an occurrence in ",x" + tail, 1 + |x| further on. */
  lemma OccurrenceShift(x: string, tail: string, needle: string, k: int)
    requires OccursAt(tail, needle, k)
    ensures OccursAt("," + x + tail, needle, 1 + |x| + k)
  {
    var hay := "," + x + tail;
    var off := 1 + |x|;
    assert hay[off + k..off + k + |needle|] == tail[k..k + |needle|];
  }

  /**
   * Whole-ingredient matching: when neither the ingredients nor the term contain a
   * comma, the term matches the recipe exactly when it equals one of its
   * ingredients, ignoring case.
   */
  lemma WholeIngredientMatch(items: seq<string>, term: string)
    requires |items| > 0
    requires AllCommaFree(items) && CommaFree(term)
    ensures Matches(Normalize(Join(items, ", ")), term)
            <==> exists j :: 0 <= j < |items| && Lower(items[j]) == Lower(term)
  {
    CollapseJoin(items);
    WrappedJoinIsDelimited(items);
    LowerDelimited(items);
    var lowered := LowerAll(items);
    assert Normalize(Join(items, ", ")) == Delimited(lowered);
    assert AllCommaFree(lowered);
    if Matches(Normalize(Join(items, ", ")), term) {
      var i :| 0 <= i <= |Delimited(lowered)| - |Delimit(term)| && OccursAt(Delimited(lowered), Delimit(term), i);
      DelimitedOccurrenceIsMember(lowered, Lower(term), i);
      var j :| 0 <= j < |lowered| && lowered[j] == Lower(term);
      assert Lower(items[j]) == Lower(term);
    }
    if exists j :: 0 <= j < |items| && Lower(items[j]) == Lower(term) {
      var j :| 0 <= j < |items| && Lower(items[j]) == Lower(term);
      MemberOccursDelimited(lowered, j);
    }
  }

  /** "milk" does not match a recipe whose only milk is "Coconut milk". */
  lemma MilkIsNotCoconutMilk()
    ensures !Matches(Normalize("Coconut milk, sugar"), "milk")
    ensures Matches(Normalize("Coconut milk, sugar"), "COCONUT MILK")
  {
    var items := ["Coconut milk", "sugar"];
    assert Join(items, ", ") == "Coconut milk, sugar";
    WholeIngredientMatch(items, "milk");
    WholeIngredientMatch(items, "COCONUT MILK");
    assert Lower(items[0]) == Lower("COCONUT MILK");
  }

  /**
   * Three recipes, "potato" liked and "onion" disliked: potato with onion scores
   * 1 - 1 = 0, potato with carrot scores 1, carrot with pea scores 0.
   */
  lemma PotatoOnionScenario()
    ensures Labels(["potato, onion", "potato, carrot", "carrot, pea"], ["potato"], ["onion"], false) == [0, 1, 0]
  {
    LabelsOfThree("potato, onion", "potato, carrot", "carrot, pea", ["potato"], ["onion"]);
    PotatoWithOnion();
    PotatoWithCarrot();
    CarrotWithPea();
  }

  lemma LabelsOfThree(r0: string, r1: string, r2: string, liked: seq<string>, disliked: seq<string>)
    ensures Labels([r0, r1, r2], liked, disliked, false)
            == [RecipeScore(r0, liked, disliked), RecipeScore(r1, liked, disliked), RecipeScore(r2, liked, disliked)]
  {
  }

  /** A two-ingredient recipe against one liked and one disliked term. */
  lemma PairScore(a: string, b: string, liked: string, disliked: string)
    requires CommaFree(a) && CommaFree(b) && CommaFree(liked) && CommaFree(disliked)
    ensures RecipeScore(a + ", " + b, [liked], [disliked])
            == (if Lower(a) == Lower(liked) || Lower(b) == Lower(liked) then 1 else 0)
               - (if Lower(a) == Lower(disliked) || Lower(b) == Lower(disliked) then 1 else 0)
  {
    var items := [a, b];
    assert [a, b][1..] == [b];
    assert Join(items, ", ") == a + ", " + b;
    WholeIngredientMatch(items, liked);
    WholeIngredientMatch(items, disliked);
    var n := Normalize(a + ", " + b);
    assert CountMatches(n, [liked]) == if Matches(n, liked) then 1 else 0;
    assert CountMatches(n, [disliked]) == if Matches(n, disliked) then 1 else 0;
  }

  lemma PotatoWithOnion()
    ensures RecipeScore("potato, onion", ["potato"], ["onion"]) == 0
  {
    ScenarioWordsCommaFree();
    PairScore("potato", "onion", "potato", "onion");
    assert "potato" + ", " + "onion" == "potato, onion";
  }

  lemma PotatoWithCarrot()
    ensures RecipeScore("potato, carrot", ["potato"], ["onion"]) == 1
  {
    ScenarioWordsCommaFree();
    PairScore("potato", "carrot", "potato", "onion");
    assert "potato" + ", " + "carrot" == "potato, carrot";
    assert |Lower("carrot")| != |Lower("onion")|;
  }

  lemma CarrotWithPea()
    ensures RecipeScore("carrot, pea", ["potato"], ["onion"]) == 0
  {
    ScenarioWordsCommaFree();
    PairScore("carrot", "pea", "potato", "onion");
    assert "carrot" + ", " + "pea" == "carrot, pea";
    assert Lower("potato")[0] == 'p' && Lower("carrot")[0] == 'c';
  }

  lemma ScenarioWordsCommaFree()
    ensures CommaFree("potato") && CommaFree("onion") && CommaFree("carrot") && CommaFree("pea")
  {
  }
}
