/** String helpers shared by the dashboard components: the JavaScript string methods the
    components call (`toLowerCase`, `includes`, `split`, `join`, `substring`, `replace`),
    stated on `seq<char>`. */
module Text {

  /** `toLowerCase` on one character, restricted to the ASCII letters. */
  function LowerChar(c: char): char {
    if 'A' <= c <= 'Z' then (c as int + 32) as char else c
  }

  function Lower(s: string): (r: string)
    ensures |r| == |s|
    ensures forall i :: 0 <= i < |s| ==> r[i] == LowerChar(s[i])
  {
    seq(|s|, i requires 0 <= i < |s| => LowerChar(s[i]))
  }

  /** Text without capital letters is its own lowercase. */
  lemma LowerOfLowerCase(s: string)
    requires forall i :: 0 <= i < |s| ==> !IsUpper(s[i])
    ensures Lower(s) == s
  {
  }

  predicate IsUpper(c: char) { 'A' <= c <= 'Z' }
  predicate IsLower(c: char) { 'a' <= c <= 'z' }
  predicate IsDigit(c: char) { '0' <= c <= '9' }

  /** The characters `String.prototype.trim` removes (ASCII whitespace). */
  predicate IsSpace(c: char) {
    c == ' ' || c == '\t' || c == '\n' || c == '\r' || c == '\U{000B}' || c == '\U{000C}'
  }

  /** `!s.trim()`: nothing but whitespace. */
  predicate IsBlank(s: string) {
    forall i :: 0 <= i < |s| ==> IsSpace(s[i])
  }

  lemma {:induction false} LowerIdempotent(s: string)
    ensures Lower(Lower(s)) == Lower(s)
  {
    assert forall i :: 0 <= i < |s| ==> LowerChar(LowerChar(s[i])) == LowerChar(s[i]);
  }

  predicate IsPrefix(p: string, s: string) {
    |p| <= |s| && s[..|p|] == p
  }

  /** `s.includes(t)`: t occurs in s at some position. */
  predicate Contains(s: string, t: string)
    decreases |s|
  {
    IsPrefix(t, s) || (s != [] && Contains(s[1..], t))
  }

  /** t occurs in s starting at position i. */
  predicate OccursAt(s: string, t: string, i: int) {
    0 <= i <= |s| - |t| && s[i..i + |t|] == t
  }

  /** `s.includes(t)` holds exactly when t occurs in s at some position. */
  lemma {:induction false} ContainsAt(s: string, t: string)
    ensures Contains(s, t) <==> exists i :: OccursAt(s, t, i)
    decreases |s|
  {
    if s == [] {
      if Contains(s, t) {
        assert OccursAt(s, t, 0);
      }
      if exists i :: OccursAt(s, t, i) {
        var i :| OccursAt(s, t, i);
        assert IsPrefix(t, s);
      }
    } else {
      ContainsAt(s[1..], t);
      if IsPrefix(t, s) {
        assert OccursAt(s, t, 0);
      } else if Contains(s[1..], t) {
        var j :| OccursAt(s[1..], t, j);
        assert s[1..][j..j + |t|] == s[j + 1..j + 1 + |t|];
        assert OccursAt(s, t, j + 1);
      }
      if exists i :: OccursAt(s, t, i) {
        var i :| OccursAt(s, t, i);
        if i > 0 {
          assert s[1..][i - 1..i - 1 + |t|] == s[i..i + |t|];
          assert OccursAt(s[1..], t, i - 1);
        } else {
          assert IsPrefix(t, s);
        }
      }
    }
  }

  lemma ContainsEmpty(s: string)
    ensures Contains(s, "")
  {
  }

  /** The case-insensitive `includes` the search boxes use:
      `s.toLowerCase().includes(term.toLowerCase())`. */
  predicate ContainsIgnoringCase(s: string, term: string) {
    Contains(Lower(s), Lower(term))
  }

  /** Every string contains the empty search term, so an empty search box hides nothing. */
  lemma EmptyTermMatches(s: string)
    ensures ContainsIgnoringCase(s, "")
  {
    ContainsEmpty(Lower(s));
  }

  /** `s.split(c)`: the pieces between occurrences of the one-character separator c. */
  function Split(s: string, c: char): (parts: seq<string>)
    ensures |parts| >= 1
    ensures forall k :: 0 <= k < |parts| ==> c !in parts[k]
    decreases |s|
  {
    if c !in s then [s]
    else
      var i := IndexOf(s, c);
      [s[..i]] + Split(s[i + 1..], c)
  }

  /** The position of the first c in s. */
  function IndexOf(s: string, c: char): (i: nat)
    requires c in s
    ensures i < |s| && s[i] == c && c !in s[..i]
  {
    if s[0] == c then 0 else 1 + IndexOf(s[1..], c)
  }

  /** `parts.join(sep)`. */
  function Join(parts: seq<string>, sep: string): string {
    if |parts| == 0 then ""
    else if |parts| == 1 then parts[0]
    else parts[0] + sep + Join(parts[1..], sep)
  }

  /** Splitting and joining again with the same separator gives back the original text. */
  lemma {:induction false} JoinSplit(s: string, c: char)
    ensures Join(Split(s, c), [c]) == s
    decreases |s|
  {
    if c in s {
      var i := IndexOf(s, c);
      var rest := Split(s[i + 1..], c);
      var parts := [s[..i]] + rest;
      assert Split(s, c) == parts;
      assert parts[0] == s[..i] && parts[1..] == rest && |parts| >= 2;
      assert Join(parts, [c]) == s[..i] + [c] + Join(rest, [c]);
      JoinSplit(s[i + 1..], c);
      assert s == s[..i] + [c] + s[i + 1..];
    }
  }

  /** Splitting text that starts with a c-free stem and a c yields the stem first. */
  lemma SplitAfterStem(a: string, c: char, b: string)
    requires c !in a
    ensures Split(a + [c] + b, c) == [a] + Split(b, c)
  {
    var s := a + [c] + b;
    assert s[|a|] == c;
    var i := IndexOf(s, c);
    if i != |a| {
      assert false;
    }
    assert s[..|a|] == a && s[|a| + 1..] == b;
  }

  /** Splitting joined text at the first character of the separator gives back one piece
      per part: the first part (after a c-free prefix), then each later part after the rest
      of the separator. */
  lemma {:induction false} SplitJoin(pre: string, parts: seq<string>, c: char, pad: string)
    requires |parts| >= 1 && c !in pre && c !in pad
    requires forall k :: 0 <= k < |parts| ==> c !in parts[k]
    ensures |Split(pre + Join(parts, [c] + pad), c)| == |parts|
    ensures Split(pre + Join(parts, [c] + pad), c)[0] == pre + parts[0]
    ensures forall k :: 1 <= k < |parts| ==> Split(pre + Join(parts, [c] + pad), c)[k] == pad + parts[k]
    decreases |parts|
  {
    NotInConcat(pre, parts[0], c);
    if |parts| > 1 {
      var rest := Join(parts[1..], [c] + pad);
      var whole := pre + Join(parts, [c] + pad);
      JoinFirst(pre, parts, [c] + pad);
      assert whole == (pre + parts[0]) + [c] + (pad + rest);
      SplitAfterStem(pre + parts[0], c, pad + rest);
      var tail := Split(pad + rest, c);
      assert Split(whole, c) == [pre + parts[0]] + tail;
      SplitJoin(pad, parts[1..], c, pad);
      PiecesAfterHead(pre + parts[0], tail, parts, pad);
    }
  }

  lemma NotInConcat(a: string, b: string, c: char)
    requires c !in a && c !in b
    ensures c !in a + b
  {
  }

  /** Joining at least two parts puts the first one, then the separator, then the rest. */
  lemma JoinFirst(pre: string, parts: seq<string>, sep: string)
    requires |parts| >= 2
    ensures pre + Join(parts, sep) == (pre + parts[0]) + sep + Join(parts[1..], sep)
  {
  }

  /** The pieces of the later parts, each after the pad, follow the head piece. */
  lemma PiecesAfterHead(head: string, tail: seq<string>, parts: seq<string>, pad: string)
    requires |parts| >= 2 && |tail| == |parts| - 1
    requires tail[0] == pad + parts[1..][0]
    requires forall k :: 1 <= k < |parts| - 1 ==> tail[k] == pad + parts[1..][k]
    ensures |[head] + tail| == |parts| && ([head] + tail)[0] == head
    ensures forall k :: 1 <= k < |parts| ==> ([head] + tail)[k] == pad + parts[k]
  {
    forall k | 1 <= k < |parts| ensures ([head] + tail)[k] == pad + parts[k] {
      assert ([head] + tail)[k] == tail[k - 1];
      assert parts[1..][k - 1] == parts[k];
    }
  }

  /** `s.split(c)[0]`: the text before the first c (all of s when there is none). */
  function BeforeFirst(s: string, c: char): (r: string)
    ensures IsPrefix(r, s) && c !in r
    ensures |r| < |s| ==> s[|r|] == c
  {
    Split(s, c)[0]
  }

  /** The first piece of `stem + c + rest` is the stem, whenever the stem has no c. */
  lemma BeforeFirstOfStem(stem: string, c: char, rest: string)
    requires c !in stem
    ensures BeforeFirst(stem + [c] + rest, c) == stem
  {
    var s := stem + [c] + rest;
    var r := BeforeFirst(s, c);
    assert s[|stem|] == c;
    if |r| > |stem| {
      assert false;
    } else if |r| < |stem| {
      assert false;
    }
    assert r == s[..|r|];
    assert s[..|stem|] == stem;
  }

  /** `s.split(c).pop()`: the text after the last c (all of s when there is none). */
  function AfterLast(s: string, c: char): (r: string)
    ensures c !in r
    ensures |r| <= |s| && s[|s| - |r|..] == r
    ensures |r| < |s| ==> s[|s| - |r| - 1] == c
    decreases |s|
  {
    if c !in s then s
    else
      var i := IndexOf(s, c);
      var r := AfterLast(s[i + 1..], c);
      SuffixAfterDrop(s, c, i, r);
      r
  }

  /** A dot-free suffix of what follows a c in s is a dot-free suffix of s, with a c before it. */
  lemma SuffixAfterDrop(s: string, c: char, i: nat, r: string)
    requires i < |s| && s[i] == c
    requires |r| <= |s| - i - 1 && s[i + 1..][|s| - i - 1 - |r|..] == r
    requires |r| < |s| - i - 1 ==> s[i + 1..][|s| - i - 1 - |r| - 1] == c
    ensures |r| <= |s| && s[|s| - |r|..] == r
    ensures |r| < |s| ==> s[|s| - |r| - 1] == c
  {
    var t := s[i + 1..];
    var m := |s| - |r|;
    forall j | 0 <= j < |r| ensures s[m..][j] == r[j] {
      assert r[j] == t[|t| - |r|..][j] == t[|t| - |r| + j];
    }
    assert s[m..] == r;
    if |r| < |t| {
      assert t[|t| - |r| - 1] == s[m - 1];
    }
  }

  /** The last piece of `stem + c + tail` is the tail, whenever the tail has no c. */
  lemma AfterLastOfTail(stem: string, c: char, tail: string)
    requires c !in tail
    ensures AfterLast(stem + [c] + tail, c) == tail
  {
    var s := stem + [c] + tail;
    var r := AfterLast(s, c);
    assert s[|stem|] == c;
    assert s[|stem| + 1..] == tail;
    if |r| > |tail| {
      assert false;
    } else if |r| < |tail| {
      assert false;
    }
  }

  /** `s.substring(0, n)` for n >= 0. */
  function Take(s: string, n: nat): (r: string)
    ensures |r| == if n < |s| then n else |s|
    ensures IsPrefix(r, s)
  {
    if n < |s| then s[..n] else s
  }

  /** `s.replace(/[:.]/g, "-")`. */
  function DashColonsAndDots(s: string): (r: string)
    ensures |r| == |s|
    ensures ':' !in r && '.' !in r
    ensures forall i :: 0 <= i < |s| && s[i] != ':' && s[i] != '.' ==> r[i] == s[i]
    ensures forall i :: 0 <= i < |s| && (s[i] == ':' || s[i] == '.') ==> r[i] == '-'
  {
    seq(|s|, i requires 0 <= i < |s| => if s[i] == ':' || s[i] == '.' then '-' else s[i])
  }

  function DigitChar(d: nat): char
    requires d < 10
  {
    ('0' as int + d) as char
  }

  /** Decimal text of a natural number, as template strings print it. */
  function NatToString(n: nat): (r: string)
    ensures |r| >= 1
    ensures forall i :: 0 <= i < |r| ==> IsDigit(r[i])
  {
    if n < 10 then [DigitChar(n)] else NatToString(n / 10) + [DigitChar(n % 10)]
  }

  /** Decimal text of an integer, with a leading '-' for negatives. */
  function IntToString(n: int): string {
    if n < 0 then "-" + NatToString(-n) else NatToString(n)
  }

  function DigitValue(c: char): nat
    requires IsDigit(c)
  {
    c as int - '0' as int
  }

  /** The value of a run of decimal digits (`Number` on such text; 0 for the empty text). */
  function DigitsValue(s: string): nat
    requires forall i :: 0 <= i < |s| ==> IsDigit(s[i])
  {
    if s == [] then 0
    else 10 * DigitsValue(s[..|s| - 1]) + DigitValue(s[|s| - 1])
  }

  /** Printing a number and reading it back gives the number. */
  lemma {:induction false} DigitsValueOfNatToString(n: nat)
    ensures DigitsValue(NatToString(n)) == n
  {
    if n >= 10 {
      DigitsValueOfNatToString(n / 10);
      var s := NatToString(n);
      assert s[..|s| - 1] == NatToString(n / 10);
    }
  }
}
