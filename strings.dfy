/**
  The Python `str` operations that the chat handler and the paragraph splitter use,
  over `string` (a sequence of Unicode scalar values).

  - `t in s`            is `Contains(s, t)` (true for an empty `t`)
  - `s.replace(t, "")`  is `RemoveAll(s, t)`
  - `s.strip()`         is `Strip(s)`
  - `s.lower()`         is `Lower(s)`, restricted to ASCII letters
  - `sep.join(parts)`   is `Join(sep, parts)`
  - `s.split(sep)`      is `Split(s, sep)`, and `s.split(sep, 1)[-1]` is `AfterFirst(s, sep)`

  `Find` (the leftmost occurrence, as `s.find(t)`) and `Count` (the non-overlapping
  occurrences, as `s.count(t)`) are helpers: they define `in`, `split` and `split(sep, 1)`,
  and state how many pieces `split` gives and how much `replace` removes.
*/
module Strings {
  import opened Common

  /** A blank line: the paragraph separator of the splitter and of the model's answers. */
  const ParagraphBreak := "\n\n"

  /** `t` occurs in `s` starting at position `i`. */
  predicate OccursAt(s: string, t: string, i: int)
  {
    0 <= i && i + |t| <= |s| && s[i..i + |t|] == t
  }

  /** `t` is a substring of `s`. */
  predicate Occurs(t: string, s: string)
  {
    exists i :: 0 <= i <= |s| - |t| && OccursAt(s, t, i)
  }

  /** An occurrence inside a slice of `s` is an occurrence in `s`, shifted by the slice start. */
  lemma OccursAtSlice(s: string, t: string, lo: int, hi: int, j: int)
    requires 0 <= lo <= hi <= |s|
    requires OccursAt(s[lo..hi], t, j)
    ensures OccursAt(s, t, lo + j)
  {
    var inner, outer := s[lo..hi][j..j + |t|], s[lo + j..lo + j + |t|];
    forall k | 0 <= k < |t| ensures inner[k] == outer[k] {}
    assert inner == outer;
  }

  /** A substring of a string in which `t` does not occur has no occurrence of `t` either. */
  lemma NotOccursInSubstring(t: string, u: string, s: string)
    requires Occurs(u, s)
    requires !Occurs(t, s)
    ensures !Occurs(t, u)
  {
    var i :| 0 <= i <= |s| - |u| && OccursAt(s, u, i);
    assert OccursAt(s, u, i);
    if Occurs(t, u) {
      var j :| 0 <= j <= |u| - |t| && OccursAt(u, t, j);
      assert u == s[i..i + |u|];
      OccursAtSlice(s, t, i, i + |u|, j);
      assert false;
    }
  }

  /** An occurrence in the tail of `s` is an occurrence in `s`. */
  lemma OccursInTail(s: string, t: string)
    requires |s| > 0
    ensures Occurs(t, s[1..]) ==> Occurs(t, s)
  {
    if Occurs(t, s[1..]) {
      var j :| 0 <= j <= |s[1..]| - |t| && OccursAt(s[1..], t, j);
      assert s[1..] == s[1..|s|];
      OccursAtSlice(s, t, 1, |s|, j);
    }
  }

  /** Every string occurs in itself. */
  lemma OccursInSelf(s: string)
    ensures Occurs(s, s)
  {
    assert OccursAt(s, s, 0);
  }

  /** A string occurs wherever it is concatenated in. */
  lemma OccursInMiddle(a: string, t: string, b: string)
    ensures Occurs(t, a + t + b)
  {
    assert (a + t + b)[|a|..|a| + |t|] == t;
    assert OccursAt(a + t + b, t, |a|);
  }

  /** A prefix of a substring is a substring. */
  lemma OccursPrefix(s: string, m: string, c: string)
    requires Occurs(m, s) && |c| <= |m| && m[..|c|] == c
    ensures Occurs(c, s)
  {
    var j :| 0 <= j <= |s| - |m| && OccursAt(s, m, j);
    assert s[j..j + |m|][..|c|] == s[j..j + |c|];
    assert OccursAt(s, c, j);
  }

  /** Substring is transitive. */
  lemma OccursTransitive(a: string, b: string, c: string)
    requires Occurs(a, b) && Occurs(b, c)
    ensures Occurs(a, c)
  {
    var i :| 0 <= i <= |b| - |a| && OccursAt(b, a, i);
    var j :| 0 <= j <= |c| - |b| && OccursAt(c, b, j);
    assert OccursAt(c, b, j);
    assert b == c[j..j + |b|];
    OccursAtSlice(c, a, j, j + |b|, i);
  }

  /** Leftmost occurrence of `t` in `s` at or after position `i`. */
  function FindFrom(s: string, t: string, i: nat): (r: Option<nat>)
    requires i <= |s|
    decreases |s| - i
    ensures r.Some? ==> i <= r.value && OccursAt(s, t, r.value)
    ensures r.Some? ==> forall j :: i <= j < r.value ==> !OccursAt(s, t, j)
    ensures r.None? ==> forall j :: i <= j ==> !OccursAt(s, t, j)
  {
    if i + |t| > |s| then None
    else if s[i..i + |t|] == t then Some(i)
    else FindFrom(s, t, i + 1)
  }

  /** `s.find(t)`: the leftmost occurrence, `None` standing for Python's -1. */
  function Find(s: string, t: string): (r: Option<nat>)
    ensures r.Some? ==> OccursAt(s, t, r.value) && forall j :: 0 <= j < r.value ==> !OccursAt(s, t, j)
    ensures r.None? <==> !Occurs(t, s)
  {
    FindFrom(s, t, 0)
  }

  /** `t in s`. */
  function Contains(s: string, t: string): (r: bool)
    ensures r <==> Occurs(t, s)
  {
    Find(s, t).Some?
  }

  /** `s.count(t)` for a non-empty `t`: non-overlapping occurrences, scanned left to right. */
  function Count(s: string, t: string): nat
    requires |t| > 0
    decreases |s|
  {
    if |s| < |t| then 0
    else if s[..|t|] == t then 1 + Count(s[|t|..], t)
    else Count(s[1..], t)
  }

  /** `s.replace(t, "")`: every non-overlapping occurrence, scanned left to right, is deleted. */
  function RemoveAll(s: string, t: string): (r: string)
    decreases |s|
    ensures |r| <= |s|
    ensures !Occurs(t, s) ==> r == s
  {
    if |t| == 0 || |s| < |t| then s
    else if s[..|t|] == t then
      assert OccursAt(s, t, 0);
      RemoveAll(s[|t|..], t)
    else
      OccursInTail(s, t);
      [s[0]] + RemoveAll(s[1..], t)
  }

  /** Deleting the occurrences shortens the string by `|t|` times their `Count`. */
  lemma {:induction false} RemoveAllLength(s: string, t: string)
    requires |t| > 0
    decreases |s|
    ensures |RemoveAll(s, t)| == |s| - |t| * Count(s, t)
  {
    if |s| < |t| {
      assert RemoveAll(s, t) == s && Count(s, t) == 0;
    } else if s[..|t|] == t {
      var rest := s[|t|..];
      var c := Count(rest, t);
      RemoveAllLength(rest, t);
      assert RemoveAll(s, t) == RemoveAll(rest, t);
      assert Count(s, t) == 1 + c;
      MulDistrib(|t|, c);
    } else {
      RemoveAllLength(s[1..], t);
      assert RemoveAll(s, t) == [s[0]] + RemoveAll(s[1..], t);
      assert Count(s, t) == Count(s[1..], t);
    }
  }

  /** Deleting the occurrences of `t` keeps exactly the pieces between them, in order:
      `s.replace(t, "") == "".join(s.split(t))`. */
  lemma {:induction false} RemoveAllSplit(s: string, t: string)
    requires |t| > 0
    decreases |s|
    ensures RemoveAll(s, t) == Join("", Split(s, t))
  {
    match Find(s, t)
    case None =>
      assert Split(s, t) == [s];
    case Some(i) =>
      var rest := s[i + |t|..];
      RemoveAllAtFirst(s, t, i);
      RemoveAllSplit(rest, t);
      var pieces := Split(rest, t);
      assert Split(s, t) == [s[..i]] + pieces;
      JoinCons("", s[..i], pieces);
  }

  /** Deleting starts by keeping the text before the first occurrence and dropping it. */
  lemma RemoveAllAtFirst(s: string, t: string, i: nat)
    requires |t| > 0 && Find(s, t) == Some(i)
    ensures RemoveAll(s, t) == s[..i] + RemoveAll(s[i + |t|..], t)
  {
    RemoveAllSkip(s, t, i);
    var u := s[i..];
    assert u[..|t|] == t && u[|t|..] == s[i + |t|..];
    RemoveAllFront(u, t);
  }

  /** One step of the left-to-right scan of `replace`. */
  lemma RemoveAllFront(s: string, t: string)
    requires |t| > 0 && |s| >= |t|
    ensures s[..|t|] == t ==> RemoveAll(s, t) == RemoveAll(s[|t|..], t)
    ensures s[..|t|] != t ==> RemoveAll(s, t) == [s[0]] + RemoveAll(s[1..], t)
  {
  }

  /** No occurrence before `j` in `s` means none before `j - 1` in its tail. */
  lemma NoOccurrenceInTail(s: string, t: string, j: nat)
    requires 0 < j <= |s|
    requires forall k :: 0 <= k < j ==> !OccursAt(s, t, k)
    ensures forall k :: 0 <= k < j - 1 ==> !OccursAt(s[1..], t, k)
  {
    forall k | 0 <= k < j - 1
      ensures !OccursAt(s[1..], t, k)
    {
      if OccursAt(s[1..], t, k) {
        assert s[1..] == s[1..|s|];
        OccursAtSlice(s, t, 1, |s|, k);
      }
    }
  }

  /** Positions before the first occurrence are kept as they are. */
  lemma {:induction false} RemoveAllSkip(s: string, t: string, j: nat)
    requires |t| > 0 && j <= |s|
    requires forall k :: 0 <= k < j ==> !OccursAt(s, t, k)
    decreases j
    ensures RemoveAll(s, t) == s[..j] + RemoveAll(s[j..], t)
  {
    if j == 0 {
      assert s[..0] == [] && s[0..] == s;
    } else if |s| < |t| {
      assert RemoveAll(s[j..], t) == s[j..];
      assert s == s[..j] + s[j..];
    } else {
      var u := s[1..];
      assert !OccursAt(s, t, 0);
      RemoveAllFront(s, t);
      NoOccurrenceInTail(s, t, j);
      RemoveAllSkip(u, t, j - 1);
      assert u[j - 1..] == s[j..];
      ConsPrefix(s, j, RemoveAll(s[j..], t));
    }
  }

  /** The first character followed by the next `j - 1` is the prefix of length `j`. */
  lemma ConsPrefix(s: string, j: nat, x: string)
    requires 0 < j <= |s|
    ensures [s[0]] + (s[1..][..j - 1] + x) == s[..j] + x
  {
    assert [s[0]] + s[1..][..j - 1] == s[..j];
  }

  /** Joining a part in front of at least one other part. */
  lemma JoinCons(sep: string, head: string, rest: seq<string>)
    requires |rest| >= 1
    ensures Join(sep, [head] + rest) == head + sep + Join(sep, rest)
  {
    assert ([head] + rest)[0] == head && ([head] + rest)[1..] == rest;
  }

  lemma MulDistrib(a: int, c: int)
    ensures a * (1 + c) == a + a * c
  {
  }

  /** Python's `str.isspace` on one character: the characters `str.strip()` removes. */
  predicate IsSpace(c: char)
  {
    var n := c as int;
    (9 <= n <= 13) || (28 <= n <= 32) || n == 0x85 || n == 0xA0 || n == 0x1680
    || (0x2000 <= n <= 0x200A) || n == 0x2028 || n == 0x2029 || n == 0x202F
    || n == 0x205F || n == 0x3000
  }

  /** Every character of `s` is whitespace. */
  predicate AllSpace(s: string)
  {
    forall k :: 0 <= k < |s| ==> IsSpace(s[k])
  }

  /** `s.lstrip()`. */
  function StripLeft(s: string): (r: string)
    decreases |s|
    ensures |r| <= |s| && r == s[|s| - |r|..]
    ensures r != [] ==> !IsSpace(r[0])
    ensures AllSpace(s[..|s| - |r|])
  {
    if s != [] && IsSpace(s[0]) then
      var r := StripLeft(s[1..]);
      assert s[..|s| - |r|] == [s[0]] + s[1..][..|s| - 1 - |r|];
      r
    else s
  }

  /** `s.rstrip()`. */
  function StripRight(s: string): (r: string)
    decreases |s|
    ensures |r| <= |s| && r == s[..|r|]
    ensures r != [] ==> !IsSpace(r[|r| - 1])
    ensures AllSpace(s[|r|..])
  {
    if s != [] && IsSpace(s[|s| - 1]) then
      var r := StripRight(s[..|s| - 1]);
      assert s[|r|..] == s[..|s| - 1][|r|..] + [s[|s| - 1]];
      r
    else s
  }

  /** A string with no whitespace at either end. */
  predicate Stripped(s: string)
  {
    s == [] || (!IsSpace(s[0]) && !IsSpace(s[|s| - 1]))
  }

  /** `s.strip()`: the result is a substring of `s` with no whitespace at either end,
      and only whitespace was cut off. */
  function Strip(s: string): (r: string)
    ensures Stripped(r)
    ensures exists i :: 0 <= i <= |s| - |r| && TrimmedAt(s, r, i)
  {
    TrimmedFromParts(s, StripLeft(s), StripRight(StripLeft(s)));
    StripEnds(s);
    StripRight(StripLeft(s))
  }

  /** Cutting whitespace off the front and then off the back keeps a middle slice with only
      whitespace around it. */
  lemma TrimmedFromParts(s: string, l: string, r: string)
    requires |l| <= |s| && l == s[|s| - |l|..] && AllSpace(s[..|s| - |l|])
    requires |r| <= |l| && r == l[..|r|] && AllSpace(l[|r|..])
    ensures TrimmedAt(s, r, |s| - |l|)
  {
    var i := |s| - |l|;
    assert r == s[i..i + |r|];
    assert l[|r|..] == s[i + |r|..];
  }

  /** Stripping leaves no whitespace at either end. */
  lemma StripEnds(s: string)
    ensures Stripped(StripRight(StripLeft(s)))
  {
    var l := StripLeft(s);
    var r := StripRight(l);
    if r != [] {
      assert r[0] == l[0];
    }
  }

  /** `r` is `s[i..i + |r|]` and everything of `s` outside it is whitespace. */
  predicate TrimmedAt(s: string, r: string, i: int)
  {
    0 <= i && i + |r| <= |s| && r == s[i..i + |r|]
    && AllSpace(s[..i]) && AllSpace(s[i + |r|..])
  }

  /** Stripping keeps a substring and never lengthens. */
  lemma StripIsSubstring(s: string)
    ensures Occurs(Strip(s), s) && |Strip(s)| <= |s|
  {
    var r := Strip(s);
    var i :| 0 <= i <= |s| - |r| && TrimmedAt(s, r, i);
    assert OccursAt(s, r, i);
  }

  /** A substring is never longer than the string it occurs in. */
  lemma OccursLength(u: string, s: string)
    requires Occurs(u, s)
    ensures |u| <= |s|
  {
  }

  /** A string that is already stripped is left alone. */
  lemma StripStripped(s: string)
    requires Stripped(s)
    ensures Strip(s) == s
  {
  }

  /** `strip` is idempotent. */
  lemma StripIdempotent(s: string)
    ensures Strip(Strip(s)) == Strip(s)
  {
    StripStripped(Strip(s));
  }

  /** `s.lower()` on ASCII letters; every other character is kept. */
  function Lower(s: string): (r: string)
    ensures |r| == |s|
    ensures forall k :: 0 <= k < |s| ==> r[k] == LowerChar(s[k])
  {
    seq(|s|, k requires 0 <= k < |s| => LowerChar(s[k]))
  }

  function LowerChar(c: char): char
  {
    if 'A' <= c <= 'Z' then (c as int + 32) as char else c
  }

  /** Lower-casing twice is lower-casing once. */
  lemma LowerIdempotent(s: string)
    ensures Lower(Lower(s)) == Lower(s)
  {
    assert forall k :: 0 <= k < |s| ==> LowerChar(LowerChar(s[k])) == LowerChar(s[k]);
  }

  /** `sep.join(parts)`: the first part starts the result and every part occurs in it. */
  function Join(sep: string, parts: seq<string>): (r: string)
    decreases |parts|
    ensures |parts| > 0 ==> |parts[0]| <= |r| && r[..|parts[0]|] == parts[0]
    ensures forall k :: 0 <= k < |parts| ==> Occurs(parts[k], r)
  {
    if |parts| == 0 then ""
    else if |parts| == 1 then OccursInSelf(parts[0]); parts[0]
    else
      var rest := Join(sep, parts[1..]);
      OccursInSuffix(parts[0] + sep, parts[1..], rest);
      assert OccursAt(parts[0] + sep + rest, parts[0], 0);
      assert forall k :: 1 <= k < |parts| ==> parts[k] == parts[1..][k - 1];
      parts[0] + sep + rest
  }

  /** Strings occurring in `b` occur in `a + b`. */
  lemma OccursInSuffix(a: string, us: seq<string>, b: string)
    requires forall k :: 0 <= k < |us| ==> Occurs(us[k], b)
    ensures forall k :: 0 <= k < |us| ==> Occurs(us[k], a + b)
  {
    forall k | 0 <= k < |us| ensures Occurs(us[k], a + b) {
      var i :| 0 <= i <= |b| - |us[k]| && OccursAt(b, us[k], i);
      assert (a + b)[|a| + i..|a| + i + |us[k]|] == b[i..i + |us[k]|];
      assert OccursAt(a + b, us[k], |a| + i);
    }
  }

  /** `s.split(sep)` for a non-empty `sep`: the pieces between the non-overlapping occurrences
      of `sep`, scanned left to right. */
  function Split(s: string, sep: string): (pieces: seq<string>)
    requires |sep| > 0
    decreases |s|
    ensures |pieces| >= 1
    ensures Join(sep, pieces) == s
    ensures forall k :: 0 <= k < |pieces| ==> !Occurs(sep, pieces[k])
    ensures !Occurs(sep, s) ==> pieces == [s]
    ensures Occurs(pieces[0], s) && s[..|pieces[0]|] == pieces[0]
    ensures forall k :: 0 <= k < |pieces| - 1 ==> Find(pieces[k] + sep, sep) == Some(|pieces[k]|)
  {
    match Find(s, sep)
    case None => OccursInSelf(s); [s]
    case Some(i) =>
      var head, rest := s[..i], Split(s[i + |sep|..], sep);
      SplitHead(s, sep, i);
      SplitCons(head, rest, sep);
      [head] + rest
  }

  /** Putting a piece cut at the leftmost separator in front of the pieces of the rest. */
  lemma SplitCons(head: string, rest: seq<string>, sep: string)
    requires |rest| >= 1 && !Occurs(sep, head) && Find(head + sep, sep) == Some(|head|)
    requires forall k :: 0 <= k < |rest| ==> !Occurs(sep, rest[k])
    requires forall k :: 0 <= k < |rest| - 1 ==> Find(rest[k] + sep, sep) == Some(|rest[k]|)
    ensures ([head] + rest)[0] == head
    ensures Join(sep, [head] + rest) == head + sep + Join(sep, rest)
    ensures forall k :: 0 <= k < |rest| + 1 ==> !Occurs(sep, ([head] + rest)[k])
    ensures forall k :: 0 <= k < |rest| ==>
      Find(([head] + rest)[k] + sep, sep) == Some(|([head] + rest)[k]|)
  {
    var pieces := [head] + rest;
    assert pieces[1..] == rest;
    assert forall k :: 1 <= k < |rest| + 1 ==> pieces[k] == rest[k - 1];
  }

  /** Facts about the text before the first separator. */
  lemma SplitHead(s: string, sep: string, i: nat)
    requires |sep| > 0 && Find(s, sep) == Some(i)
    ensures s == s[..i] + sep + s[i + |sep|..]
    ensures !Occurs(sep, s[..i]) && Occurs(s[..i], s)
    ensures Find(s[..i] + sep, sep) == Some(i)
  {
    var head := s[..i];
    assert OccursAt(s, sep, i);
    assert s == head + s[i..i + |sep|] + s[i + |sep|..];
    assert !Occurs(sep, head) by {
      if j :| OccursAt(head, sep, j) {
        OccursAtSlice(s, sep, 0, i, j);
      }
    }
    assert OccursAt(s, head, 0);
    SplitHeadFirst(s, sep, i);
  }

  /** The first separator is also the first one of the text cut just after it. */
  lemma SplitHeadFirst(s: string, sep: string, i: nat)
    requires i + |sep| <= |s| && OccursAt(s, sep, i)
    requires forall j :: 0 <= j < i ==> !OccursAt(s, sep, j)
    ensures Find(s[..i] + sep, sep) == Some(i)
  {
    var p := s[..i] + sep;
    assert p == s[..i + |sep|];
    forall j | 0 <= j < i ensures !OccursAt(p, sep, j) {
      if OccursAt(p, sep, j) {
        OccursAtSlice(s, sep, 0, i + |sep|, j);
      }
    }
    assert OccursAt(p, sep, i);
  }

  /** The number of pieces is one more than the number of separators found. */
  lemma {:induction false} SplitCount(s: string, sep: string)
    requires |sep| > 0
    decreases |s|
    ensures |Split(s, sep)| == Count(s, sep) + 1
  {
    match Find(s, sep)
    case None =>
      CountSkip(s, sep, |s|);
      assert Count(s[|s|..], sep) == 0;
    case Some(i) =>
      CountSkip(s, sep, i);
      assert s[i..][..|sep|] == sep;
      assert s[i..][|sep|..] == s[i + |sep|..];
      SplitCount(s[i + |sep|..], sep);
  }

  /** Positions before the first occurrence do not contribute to the count. */
  lemma {:induction false} CountSkip(s: string, t: string, j: nat)
    requires |t| > 0 && j <= |s|
    requires forall k :: 0 <= k < j ==> !OccursAt(s, t, k)
    decreases j
    ensures Count(s, t) == Count(s[j..], t)
  {
    if j > 0 {
      if |s| < |t| {
        assert Count(s[j..], t) == 0;
      } else {
        assert !OccursAt(s, t, 0);
        assert s[..|t|] != t;
        forall k | 0 <= k < j - 1
          ensures !OccursAt(s[1..], t, k)
        {
          if OccursAt(s[1..], t, k) {
            assert s[1..] == s[1..|s|];
            OccursAtSlice(s, t, 1, |s|, k);
          }
        }
        CountSkip(s[1..], t, j - 1);
        assert s[1..][j - 1..] == s[j..];
      }
    }
  }

  /** `s.split(sep, 1)[-1]`: what follows the first occurrence of `sep`, or all of `s`. */
  function AfterFirst(s: string, sep: string): (r: string)
    ensures Occurs(r, s) && r == s[|s| - |r|..]
    ensures match Find(s, sep)
            case None => r == s
            case Some(i) => r == s[i + |sep|..]
  {
    match Find(s, sep)
    case None => OccursInSelf(s); s
    case Some(i) =>
      assert OccursAt(s, s[i + |sep|..], i + |sep|);
      s[i + |sep|..]
  }

  /** For a one-character separator that no part contains, splitting undoes joining. */
  lemma {:induction false} SplitJoin(parts: seq<string>, sep: string)
    requires |sep| == 1 && |parts| >= 1
    requires forall k :: 0 <= k < |parts| ==> !Occurs(sep, parts[k])
    decreases |parts|
    ensures Split(Join(sep, parts), sep) == parts
  {
    if |parts| == 1 {
    } else {
      var head, rest := parts[0], parts[1..];
      var s := Join(sep, parts);
      assert s == head + sep + Join(sep, rest);
      assert OccursAt(s, sep, |head|);
      assert !Occurs(sep, parts[0]);
      forall k | 0 <= k < |head|
        ensures !OccursAt(s, sep, k)
      {
        assert s[k] == head[k];
        assert s[k..k + 1] == [s[k]] && head[k..k + 1] == [head[k]];
        assert !OccursAt(head, sep, k);
      }
      assert Find(s, sep) == Some(|head|);
      assert s[..|head|] == head;
      assert s[|head| + 1..] == Join(sep, rest);
      SplitJoin(rest, sep);
    }
  }
}
