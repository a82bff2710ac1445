/**
 The pieces of Go's `strings` package and string conversions that the notifier relies on:
 `strings.Join`, its inverse on separator-free parts, a byte type for `[]byte`, and the
 conversion of an ASCII string to its bytes.
 */
module Strings {
  import opened Wrappers

  newtype byte = x: int | 0 <= x < 256

  predicate IsAscii(s: string) {
    forall i :: 0 <= i < |s| ==> s[i] as int < 128
  }

  /** `[]byte(s)` for an ASCII string: one byte per character, holding its code. */
  function AsciiBytes(s: string): (b: seq<byte>)
    requires IsAscii(s)
    ensures |b| == |s|
    ensures forall i :: 0 <= i < |s| ==> b[i] as int == s[i] as int
  {
    if |s| == 0 then [] else [s[0] as int as byte] + AsciiBytes(s[1..])
  }

  lemma AsciiBytesInjective(s: string, t: string)
    requires IsAscii(s) && IsAscii(t)
    ensures AsciiBytes(s) == AsciiBytes(t) <==> s == t
  {
    if AsciiBytes(s) == AsciiBytes(t) {
      assert |s| == |t|;
      forall i | 0 <= i < |s| ensures s[i] == t[i] {
        assert AsciiBytes(s)[i] == AsciiBytes(t)[i];
      }
    }
  }

  /** `strings.Join(parts, sep)`: the parts with `sep` between each two neighbours. */
  function Join(parts: seq<string>, sep: string): (s: string)
    ensures |parts| == 0 ==> s == ""
    ensures |parts| == 1 ==> s == parts[0]
  {
    if |parts| == 0 then ""
    else if |parts| == 1 then parts[0]
    else parts[0] + sep + Join(parts[1..], sep)
  }

  /** `strings.Split(s, [c])`: the maximal pieces between occurrences of `c`; never empty. */
  function Split(s: string, c: char): (parts: seq<string>)
    ensures |parts| >= 1
  {
    if |s| == 0 then [""]
    else
      var rest := Split(s[1..], c);
      if s[0] == c then [""] + rest else [[s[0]] + rest[0]] + rest[1..]
  }

  lemma {:induction false} SplitFree(p: string, c: char)
    requires c !in p
    ensures Split(p, c) == [p]
  {
    if |p| > 0 {
      SplitFree(p[1..], c);
      assert [p[0]] + p[1..] == p;
    }
  }

  lemma {:induction false} SplitAfterFree(p: string, c: char, t: string)
    requires c !in p
    ensures Split(p + [c] + t, c) == [p] + Split(t, c)
  {
    if |p| == 0 {
      assert p + [c] + t == [c] + t;
      assert ([c] + t)[1..] == t;
    } else {
      assert (p + [c] + t)[1..] == p[1..] + [c] + t;
      SplitAfterFree(p[1..], c, t);
      assert [p[0]] + p[1..] == p;
    }
  }

  /** Splitting at the separator recovers the joined parts, provided no part contains it. */
  lemma {:induction false} SplitJoin(parts: seq<string>, c: char)
    requires |parts| >= 1
    requires forall i :: 0 <= i < |parts| ==> c !in parts[i]
    ensures Split(Join(parts, [c]), c) == parts
  {
    if |parts| == 1 {
      SplitFree(parts[0], c);
    } else {
      SplitJoin(parts[1..], c);
      SplitAfterFree(parts[0], c, Join(parts[1..], [c]));
      assert [parts[0]] + parts[1..] == parts;
    }
  }

  /**
   A sequence made of a separator-free head, the separator and a tail determines the head and
   the tail: the first separator marks the boundary.
   */
  lemma SeparatorInjective<T>(a: seq<T>, sep: T, t: seq<T>, b: seq<T>, u: seq<T>)
    requires sep !in a && sep !in b
    requires a + [sep] + t == b + [sep] + u
    ensures a == b && t == u
  {
    var x := a + [sep] + t;
    assert x[|a|] == sep;
    assert x[|b|] == (b + [sep] + u)[|b|] == sep;
    assert |a| == |b|;
    assert a == x[..|a|] == b;
    assert t == x[|a| + 1..] == u;
  }
}
