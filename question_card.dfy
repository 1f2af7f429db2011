/**
 * The display rules of components/QuestionCard.tsx: the colour of the
 * category badge, the shuffled list of choices with the correct one
 * marked, and the card heading.
 */
module QuestionCard {
  import opened Text
  import opened QuizTypes

  // ---------------------------------------------------------------------
  // the category badge

  /** The five class strings `getCategoryColorClasses` can return, by colour. */
  datatype BadgeColor = Blue | Purple | Amber | Emerald | Slate

  /** `s.replace(/\s+/g, '')`: every whitespace character removed, the rest kept in order. */
  function RemoveWhite(s: string): (r: string)
    ensures |r| <= |s| && NoWhite(r)
    ensures NoUpper(s) ==> NoUpper(r)
  {
    if s == [] then []
    else if IsWhite(s[0]) then RemoveWhite(s[1..])
    else [s[0]] + RemoveWhite(s[1..])
  }

  lemma {:induction false} RemoveWhiteKeepsNoWhite(s: string)
    requires NoWhite(s)
    ensures RemoveWhite(s) == s
  {
    if s != [] {
      RemoveWhiteKeepsNoWhite(s[1..]);
    }
  }

  /** The key the badge switch looks at: lower-cased, all whitespace removed. */
  function NormalizeCategory(category: string): (key: string)
    ensures NoWhite(key) && NoUpper(key)
    ensures |key| <= |category|
  {
    RemoveWhite(ToLower(category))
  }

  /** Normalising twice is normalising once. */
  lemma NormalizeIdempotent(category: string)
    ensures NormalizeCategory(NormalizeCategory(category)) == NormalizeCategory(category)
  {
    var key := NormalizeCategory(category);
    ToLowerKeepsLower(key);
    RemoveWhiteKeepsNoWhite(key);
  }

  /** `getCategoryColorClasses(category)`. */
  function CategoryColor(category: string): (c: BadgeColor)
    ensures var key := NormalizeCategory(category);
      && (c == Blue <==> key == "science")
      && (c == Purple <==> key == "technology")
      && (c == Amber <==> key == "history" || key == "islamichistory")
      && (c == Emerald <==> key == "sports")
      && (c == Slate <==> key !in {"science", "technology", "history", "islamichistory", "sports"})
  {
    match NormalizeCategory(category)
    case "science" => Blue
    case "technology" => Purple
    case "history" => Amber
    case "islamichistory" => Amber
    case "sports" => Emerald
    case _ => Slate
  }

  /** The badge depends only on the normalised category: a normalised key keeps its colour. */
  lemma ColorOfNormalizedCategory(category: string)
    ensures CategoryColor(NormalizeCategory(category)) == CategoryColor(category)
  {
    NormalizeIdempotent(category);
  }

  lemma {:induction false} RemoveWhiteAppend(a: string, b: string)
    ensures RemoveWhite(a + b) == RemoveWhite(a) + RemoveWhite(b)
  {
    if a == [] {
      assert a + b == b;
    } else {
      assert (a + b)[1..] == a[1..] + b;
      RemoveWhiteAppend(a[1..], b);
    }
  }

  /** Normalising works piece by piece. */
  lemma NormalizeAppend(a: string, b: string, c: string)
    ensures NormalizeCategory(a + b + c) == NormalizeCategory(a) + NormalizeCategory(b) + NormalizeCategory(c)
  {
    ToLowerAppend(a, b, c);
    RemoveWhiteAppend(ToLower(a) + ToLower(b), ToLower(c));
    RemoveWhiteAppend(ToLower(a), ToLower(b));
  }

  lemma NormalizeLowerWord(s: string)
    requires NoWhite(s) && NoUpper(s)
    ensures NormalizeCategory(s) == s
  {
    ToLowerKeepsLower(s);
    RemoveWhiteKeepsNoWhite(s);
  }

  lemma {:induction false} RemoveWhiteOfWhite(s: string)
    requires AllWhite(s)
    ensures RemoveWhite(s) == []
  {
    if s != [] {
      RemoveWhiteOfWhite(s[1..]);
    }
  }

  /** Whitespace between two parts of a category, however much, does not change its key. */
  lemma SpacingIgnored(w1: string, run: string, w2: string)
    requires AllWhite(run)
    ensures NormalizeCategory(w1 + run + w2) == NormalizeCategory(w1 + w2)
  {
    NormalizeAppend(w1, run, w2);
    RemoveWhiteOfWhite(ToLower(run));
    NormalizeAppend(w1, [], w2);
    assert w1 + [] + w2 == w1 + w2;
  }

  /** Capitals do not change the key. */
  lemma CaseIgnored(category: string)
    ensures NormalizeCategory(ToLower(category)) == NormalizeCategory(category)
  {
    ToLowerKeepsLower(ToLower(category));
  }

  lemma IslamicHistoryKey()
    ensures NormalizeCategory("IslamicHistory") == "islamichistory"
  {
    assert ToLower("IslamicHistory") == "islamichistory";
    RemoveWhiteKeepsNoWhite("islamichistory");
  }

  /** "Islamic History", however capitalised or spaced, gets the amber badge. */
  lemma IslamicHistoryIsAmber(run: string)
    requires run != [] && AllWhite(run)
    ensures NormalizeCategory("Islamic" + run + "History") == "islamichistory"
    ensures CategoryColor("Islamic" + run + "History") == Amber
    ensures CategoryColor("islamic" + run + "history") == Amber
  {
    SpacingIgnored("Islamic", run, "History");
    assert "Islamic" + "History" == "IslamicHistory";
    IslamicHistoryKey();
    SpacingIgnored("islamic", run, "history");
    assert "islamic" + "history" == "islamichistory";
    NormalizeLowerWord("islamichistory");
  }

  // ---------------------------------------------------------------------
  // the shuffled choices

  function Swap(s: seq<string>, i: nat, j: nat): (r: seq<string>)
    requires i < |s| && j < |s|
    ensures |r| == |s| && r[i] == s[j] && r[j] == s[i]
    ensures forall k :: 0 <= k < |s| && k != i && k != j ==> r[k] == s[k]
    ensures multiset(r) == multiset(s)
  {
    s[i := s[j]][j := s[i]]
  }

  /**
   * An order the random comparator sort may produce, given as the swaps
   * that produce it; a swap naming a position outside the list does
   * nothing, so every list of swaps describes some order.
   */
  function Shuffle(s: seq<string>, swaps: seq<(nat, nat)>): (r: seq<string>)
    ensures |r| == |s| && multiset(r) == multiset(s)
    decreases |swaps|
  {
    if swaps == [] then s
    else
      var (i, j) := swaps[0];
      Shuffle(if i < |s| && j < |s| then Swap(s, i, j) else s, swaps[1..])
  }

  /** Every rearrangement of `s` is the outcome of some list of swaps. */
  lemma ShuffleReachesEveryPermutation(s: seq<string>, t: seq<string>)
    requires multiset(s) == multiset(t)
    ensures exists swaps :: Shuffle(s, swaps) == t
  {
    calc {
      |s|;
      |multiset(s)|;
      |multiset(t)|;
      |t|;
    }
    var swaps := SortInto(s, t, 0);
  }

  /** Swaps that, starting at position `k`, put the rest of `cur` into the order of `t`. */
  lemma {:induction false} SortInto(cur: seq<string>, t: seq<string>, k: nat) returns (swaps: seq<(nat, nat)>)
    requires |cur| == |t| && k <= |t|
    requires cur[..k] == t[..k]
    requires multiset(cur[k..]) == multiset(t[k..])
    ensures Shuffle(cur, swaps) == t
    decreases |t| - k
  {
    if k == |t| {
      assert cur == cur[..k] && t == t[..k];
      swaps := [];
    } else {
      var j := PlaceNext(cur, t, k);
      var rest := SortInto(Swap(cur, k, j), t, k + 1);
      swaps := [(k, j)] + rest;
      assert swaps[1..] == rest;
    }
  }

  /** One step of `SortInto`: the swap that brings `t[k]` to position `k`. */
  lemma PlaceNext(cur: seq<string>, t: seq<string>, k: nat) returns (j: nat)
    requires |cur| == |t| && k < |t|
    requires cur[..k] == t[..k]
    requires multiset(cur[k..]) == multiset(t[k..])
    ensures k <= j < |cur|
    ensures Swap(cur, k, j)[..k + 1] == t[..k + 1]
    ensures multiset(Swap(cur, k, j)[k + 1..]) == multiset(t[k + 1..])
  {
    MultisetOfSuffix(t, k);
    MultisetOfSuffix(cur, k);
    j := IndexOf(cur, t[k], k);
    var next := Swap(cur, k, j);
    SwapWithinSuffix(cur, k, j);
    MultisetOfSuffix(next, k);
    MultisetCancel(multiset{t[k]}, multiset(next[k + 1..]), multiset(t[k + 1..]));
    assert next[..k + 1] == next[..k] + [next[k]];
    assert t[..k + 1] == t[..k] + [t[k]];
  }

  lemma MultisetCancel(a: multiset<string>, b: multiset<string>, c: multiset<string>)
    requires a + b == a + c
    ensures b == c
  {
    forall x ensures b[x] == c[x] {
      assert (a + b)[x] == (a + c)[x];
    }
  }

  lemma MultisetOfSuffix(s: seq<string>, k: nat)
    requires k < |s|
    ensures multiset(s[k..]) == multiset{s[k]} + multiset(s[k + 1..])
  {
    assert s[k..] == [s[k]] + s[k + 1..];
  }

  /** A position at or after `k` where `x` stands, given that it stands somewhere there. */
  lemma IndexOf(s: seq<string>, x: string, k: nat) returns (j: nat)
    requires k <= |s| && x in multiset(s[k..])
    ensures k <= j < |s| && s[j] == x
  {
    assert x in s[k..];
    var m :| 0 <= m < |s[k..]| && s[k..][m] == x;
    j := k + m;
  }

  /** Swapping two positions at or after `k` keeps the prefix and the multiset of the suffix. */
  lemma SwapWithinSuffix(s: seq<string>, k: nat, j: nat)
    requires k <= j < |s|
    ensures Swap(s, k, j)[..k] == s[..k]
    ensures multiset(Swap(s, k, j)[k..]) == multiset(s[k..])
  {
    var r := Swap(s, k, j);
    assert s == s[..k] + s[k..];
    assert r == r[..k] + r[k..];
    assert r[..k] == s[..k];
  }

  /** `[...question.Options, question.CorrectAnswer].sort(...)`: the choices as displayed. */
  function DisplayChoices(q: Question, swaps: seq<(nat, nat)>): (shown: seq<string>)
    ensures |shown| == |q.options| + 1
    ensures multiset(shown) == multiset(q.options + [q.correctAnswer])
  {
    Shuffle(q.options + [q.correctAnswer], swaps)
  }

  /** `option === question.CorrectAnswer`, for each displayed choice. */
  function Marks(answer: string, shown: seq<string>): (marks: seq<bool>)
    ensures |marks| == |shown|
    ensures forall i :: 0 <= i < |shown| ==> (marks[i] <==> shown[i] == answer)
  {
    seq(|shown|, i requires 0 <= i < |shown| => shown[i] == answer)
  }

  function CountTrue(bs: seq<bool>): nat {
    if bs == [] then 0 else (if bs[0] then 1 else 0) + CountTrue(bs[1..])
  }

  /** A choice is marked once for every time it equals the answer. */
  lemma {:induction false} MarkedCount(answer: string, shown: seq<string>)
    ensures CountTrue(Marks(answer, shown)) == multiset(shown)[answer]
  {
    if shown != [] {
      MarkedCount(answer, shown[1..]);
      assert Marks(answer, shown)[1..] == Marks(answer, shown[1..]);
      assert shown == [shown[0]] + shown[1..];
    }
  }

  /**
   * However the choices are shuffled, the correct answer is marked at least
   * once; exactly once when it is not also among the options.
   */
  lemma CorrectChoiceMarked(q: Question, swaps: seq<(nat, nat)>)
    ensures var marks := Marks(q.correctAnswer, DisplayChoices(q, swaps));
      && CountTrue(marks) == multiset(q.options)[q.correctAnswer] + 1
      && (CountTrue(marks) == 1 <==> q.correctAnswer !in q.options)
      && exists i :: 0 <= i < |marks| && marks[i]
  {
    var shown := DisplayChoices(q, swaps);
    var marks := Marks(q.correctAnswer, shown);
    MarkedCount(q.correctAnswer, shown);
    assert multiset(q.options + [q.correctAnswer]) == multiset(q.options) + multiset{q.correctAnswer};
    assert q.correctAnswer in multiset(shown);
    var i :| 0 <= i < |shown| && shown[i] == q.correctAnswer;
    assert marks[i];
  }

  // ---------------------------------------------------------------------
  // the heading

  /** `Question {index + 1}`: the heading of the card at position `index` in the list. */
  function CardHeading(index: nat): (h: string)
    ensures |h| > 9 && h[..9] == "Question "
    ensures forall i :: 9 <= i < |h| ==> IsDigit(h[i])
    ensures ParseNat(h[9..]) == index + 1
  {
    var h := "Question " + NatToString(index + 1);
    assert h[9..] == NatToString(index + 1);
    ParseNatToString(index + 1);
    h
  }
}
