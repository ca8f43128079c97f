/**
  grep's pattern matcher (user/grep.c) against the language it is meant to decide.  A C
  string is a sequence of characters other than NUL; a pointer into one is the rest of it.
 */
module Regex {
  import opened Util

  /** *p, which at the end is NUL. */
  function Deref(p: CString, k: nat): char {
    if k < |p| then p[k] else '\0'
  }

  // ---------- what a pattern means ----------

  datatype Item = One(c: char) | Star(c: char) | End

  /** The items of a pattern: x* wherever a star follows, a final '$', single characters. */
  function Items(re: CString): seq<Item> {
    if re == "" then []
    else if |re| > 1 && re[1] == '*' then [Star(re[0])] + Items(re[2..])
    else if re == "$" then [End]
    else [One(re[0])] + Items(re[1..])
  }

  predicate Admits(c: char, ch: char) {
    c == '.' || c == ch
  }

  /** `item` matches exactly text[a..b]. */
  predicate Spans(item: Item, text: CString, a: nat, b: nat) {
    match item
    case One(c) => a < |text| && b == a + 1 && Admits(c, text[a])
    case Star(c) => a <= b <= |text| && forall k :: a <= k < b ==> Admits(c, text[k])
    case End => a == b == |text|
  }

  /** The text, cut at `cuts`, begins with one piece for each item. */
  ghost predicate CutsFit(items: seq<Item>, text: CString, cuts: seq<nat>) {
    && |cuts| == |items| + 1 && cuts[0] == 0
    && forall k :: 0 <= k < |items| ==> Spans(items[k], text, cuts[k], cuts[k + 1])
  }

  /** Some prefix of the text is in the language of the items. */
  ghost predicate Accepts(items: seq<Item>, text: CString) {
    exists cuts :: CutsFit(items, text, cuts)
  }

  /** What match is to decide. */
  ghost predicate Matches(re: CString, text: CString) {
    if re != "" && re[0] == '^' then Accepts(Items(re[1..]), text)
    else exists i :: 0 <= i <= |text| && Accepts(Items(re), text[i..])
  }

  // ---------- one item at a time ----------

  function Shift(cuts: seq<nat>, m: nat): (r: seq<nat>)
    ensures |r| == |cuts| && forall k :: 0 <= k < |r| ==> r[k] == cuts[k] + m
  {
    seq(|cuts|, k requires 0 <= k < |cuts| => cuts[k] + m)
  }

  lemma AcceptsNothing(text: CString)
    ensures Accepts([], text)
  {
    assert CutsFit([], text, [0]);
  }

  /** If the first item takes text[..m] and the rest fit behind it, all fit. */
  lemma AcceptsFirst(item: Item, rest: seq<Item>, text: CString, m: nat)
    requires m <= |text| && Spans(item, text, 0, m) && Accepts(rest, text[m..])
    ensures Accepts([item] + rest, text)
  {
    var cuts :| CutsFit(rest, text[m..], cuts);
    var all := [0] + Shift(cuts, m);
    forall k | 0 <= k < |rest| + 1 ensures Spans(([item] + rest)[k], text, all[k], all[k + 1]) {
      if k > 0 {
        SpansShifted(rest[k - 1], text, m, cuts[k - 1], cuts[k]);
      }
    }
    assert CutsFit([item] + rest, text, all);
  }

  /** And if all fit, the first takes some text[..m] and the rest fit behind it. */
  lemma AcceptedFirst(item: Item, rest: seq<Item>, text: CString) returns (m: nat)
    requires Accepts([item] + rest, text)
    ensures m <= |text| && Spans(item, text, 0, m) && Accepts(rest, text[m..])
  {
    var items := [item] + rest;
    var all :| CutsFit(items, text, all);
    assert Spans(items[0], text, all[0], all[1]);
    m := all[1];
    var cuts: seq<nat> := seq(|rest| + 1, k requires 0 <= k < |rest| + 1 => Cut(items, text, all, k + 1) - m);
    forall k | 0 <= k < |rest| ensures Spans(rest[k], text[m..], cuts[k], cuts[k + 1]) {
      assert Cut(items, text, all, k + 1) >= m;
      assert items[k + 1] == rest[k];
      SpansShifted(rest[k], text, m, cuts[k], cuts[k + 1]);
    }
    assert CutsFit(rest, text[m..], cuts);
  }

  /** Cuts never go back. */
  ghost function Cut(items: seq<Item>, text: CString, cuts: seq<nat>, k: nat): (r: nat)
    requires CutsFit(items, text, cuts) && 0 < k < |cuts|
    ensures r == cuts[k] >= cuts[1]
  {
    if k == 1 then cuts[1]
    else
      assert Spans(items[k - 1], text, cuts[k - 1], cuts[k]);
      assert Cut(items, text, cuts, k - 1) >= cuts[1];
      cuts[k]
  }

  lemma SpansShifted(item: Item, text: CString, m: nat, a: nat, b: nat)
    requires m <= |text|
    ensures Spans(item, text[m..], a, b) <==> Spans(item, text, a + m, b + m)
  {
    var rest := text[m..];
    if item.Star? && b <= |rest| {
      assert forall k :: 0 <= k < |rest| ==> rest[k] == text[k + m];
      assert forall k :: m <= k < |text| ==> text[k] == rest[k - m];
    }
  }

  // ---------- the matcher ----------

  method MatchHere(re: CString, text: CString) returns (r: bool)
    ensures r <==> Accepts(Items(re), text)
    decreases |re|, 0
  {
    if Deref(re, 0) == '\0' {
      AcceptsNothing(text);
      return true;
    }
    if Deref(re, 1) == '*' {
      r := MatchStar(re[0], re[2..], text);
      return;
    }
    if re[0] == '$' && Deref(re, 1) == '\0' {
      EndOnly(text);
      return Deref(text, 0) == '\0';
    }
    OneFirst(re[0], Items(re[1..]), text);
    if Deref(text, 0) != '\0' && (re[0] == '.' || re[0] == text[0]) {
      r := MatchHere(re[1..], text[1..]);
      return;
    }
    return false;
  }

  lemma EndOnly(text: CString)
    ensures Accepts([End], text) <==> text == ""
  {
    if Accepts([End], text) {
      var cuts :| CutsFit([End], text, cuts);
      assert Spans([End][0], text, cuts[0], cuts[1]);
    }
    if text == "" {
      assert CutsFit([End], text, [0, 0]);
    }
  }

  lemma OneFirst(c: char, rest: seq<Item>, text: CString)
    ensures Accepts([One(c)] + rest, text) <==> text != "" && Admits(c, text[0]) && Accepts(rest, text[1..])
  {
    if Accepts([One(c)] + rest, text) {
      var m := AcceptedFirst(One(c), rest, text);
    }
    if text != "" && Admits(c, text[0]) && Accepts(rest, text[1..]) {
      AcceptsFirst(One(c), rest, text, 1);
    }
  }

  /** A star takes no more than the characters it admits. */
  lemma StarStops(c: char, rest: seq<Item>, text: CString, n: nat)
    requires n == |text| || (n < |text| && !Admits(c, text[n]))
    ensures Accepts([Star(c)] + rest, text) ==> exists m :: 0 <= m <= n && Accepts(rest, text[m..])
  {
    if Accepts([Star(c)] + rest, text) {
      var m := AcceptedFirst(Star(c), rest, text);
      assert m <= n;
    }
  }

  method MatchStar(c: char, re: CString, text: CString) returns (r: bool)
    requires c != '\0'
    ensures r <==> Accepts([Star(c)] + Items(re), text)
    decreases |re|, 1
  {
    var t, going := text, true;
    ghost var n := 0;
    while going
      invariant n <= |text| && (going ==> t == text[n..])
      invariant forall k :: 0 <= k < n ==> Admits(c, text[k])
      invariant forall k :: 0 <= k < n ==> !Accepts(Items(re), text[k..])
      invariant !going ==> !Accepts(Items(re), text[n..]) && (n == |text| || !Admits(c, text[n]))
      decreases going, |text| - n
    {
      var here := MatchHere(re, t);
      if here {
        AcceptsFirst(Star(c), Items(re), text, n);
        return true;
      }
      going := Deref(t, 0) != '\0' && (t[0] == c || c == '.');
      if going {
        t := t[1..];
        n := n + 1;
      }
    }
    StarStops(c, Items(re), text, n);
    return false;
  }

  /** match decides exactly the meaning of the pattern. */
  method Match(re: CString, text: CString) returns (r: bool)
    ensures r <==> Matches(re, text)
  {
    if Deref(re, 0) == '^' {
      r := MatchHere(re[1..], text);
      return;
    }
    var t, going := text, true;
    ghost var n := 0;
    while going
      invariant n <= |text| && (going ==> t == text[n..])
      invariant forall k :: 0 <= k < n ==> !Accepts(Items(re), text[k..])
      invariant !going ==> n == |text| && !Accepts(Items(re), text[n..])
      decreases going, |text| - n
    {
      var here := MatchHere(re, t);
      if here {
        return true;
      }
      going := Deref(t, 0) != '\0';
      if going {
        t := t[1..];
        n := n + 1;
      }
    }
    return false;
  }
}
