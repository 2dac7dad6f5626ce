/** C strings: a string value is the bytes before the terminator. */
module CStrings {
  /** A C string ends at its first zero byte. */
  function Cut(s: string): string {
    if s == "" || s[0] as int == 0 then "" else [s[0]] + Cut(s[1..])
  }

  /** What a C string can hold. */
  predicate NoNul(s: string) {
    forall i :: 0 <= i < |s| ==> s[i] as int != 0
  }

  lemma {:induction false} CutNothing(s: string)
    requires NoNul(s)
    ensures Cut(s) == s
    decreases |s|
  {
    if s == "" {
    } else {
      CutNothing(s[1..]);
    }
  }

  /** tolower in the C locale. */
  function ToLower(c: char): char {
    if 'A' <= c <= 'Z' then (c as int + 32) as char else c
  }

  function Fold(s: string): (r: string)
    ensures |r| == |s|
    ensures forall i :: 0 <= i < |s| ==> r[i] == ToLower(s[i])
  {
    seq(|s|, i requires 0 <= i < |s| => ToLower(s[i]))
  }

  /** The key two strings share exactly when the library treats them as the same key. */
  function Norm(s: string, caseSensitive: bool): string {
    if caseSensitive then s else Fold(s)
  }

  /** The sign of strcmp. */
  function StrCmp(a: string, b: string): int {
    if a == [] then (if b == [] then 0 else -1)
    else if b == [] then 1
    else if a[0] != b[0] then (if a[0] < b[0] then -1 else 1)
    else StrCmp(a[1..], b[1..])
  }

  predicate Before(a: string, b: string, caseSensitive: bool) {
    StrCmp(Norm(a, caseSensitive), Norm(b, caseSensitive)) < 0
  }

  lemma {:induction false} StrCmpZero(a: string, b: string)
    ensures StrCmp(a, b) == 0 <==> a == b
  {
    if a != [] && b != [] {
      StrCmpZero(a[1..], b[1..]);
      assert a == [a[0]] + a[1..] && b == [b[0]] + b[1..];
    }
  }

  lemma {:induction false} StrCmpAntisymmetric(a: string, b: string)
    ensures StrCmp(a, b) == -StrCmp(b, a)
  {
    if a != [] && b != [] && a[0] == b[0] {
      StrCmpAntisymmetric(a[1..], b[1..]);
    }
  }

  lemma {:induction false} StrCmpTransitive(a: string, b: string, c: string)
    requires StrCmp(a, b) <= 0 && StrCmp(b, c) <= 0
    ensures StrCmp(a, c) <= 0
    ensures StrCmp(a, b) < 0 || StrCmp(b, c) < 0 ==> StrCmp(a, c) < 0
  {
    if a != [] && b != [] && c != [] && a[0] == b[0] == c[0] {
      StrCmpTransitive(a[1..], b[1..], c[1..]);
    }
  }

  lemma StrCmpFrom(x: string, y: string, i: nat)
    requires i <= |x| && i <= |y|
    ensures StrCmp(x[i..], y[i..]) ==
            if i == |x| then (if i == |y| then 0 else -1)
            else if i == |y| then 1
            else if x[i] != y[i] then (if x[i] < y[i] then -1 else 1)
            else StrCmp(x[i + 1..], y[i + 1..])
  {
  }

  /** compare_strings: the loop over two terminated strings. */
  method CompareStrings(a: string, b: string, caseSensitive: bool) returns (diff: int)
    ensures diff < 0 <==> Before(a, b, caseSensitive)
    ensures diff == 0 <==> Norm(a, caseSensitive) == Norm(b, caseSensitive)
    ensures diff > 0 <==> Before(b, a, caseSensitive)
  {
    hide StrCmp;
    ghost var x, y := Norm(a, caseSensitive), Norm(b, caseSensitive);
    StrCmpZero(x, y);
    StrCmpAntisymmetric(x, y);
    var i := 0;
    assert x[0..] == x && y[0..] == y;
    while i < |a| && i < |b| && (a[i] == b[i] || (!caseSensitive && ToLower(a[i]) == ToLower(b[i])))
      invariant i <= |a| && i <= |b|
      invariant StrCmp(x, y) == StrCmp(x[i..], y[i..])
    {
      StrCmpFrom(x, y, i);
      i := i + 1;
    }
    StrCmpFrom(x, y, i);
    if i == |a| && i == |b| {
      diff := 0;
    } else if i == |a| {
      diff := -1;
    } else if i == |b| {
      diff := 1;
    } else if caseSensitive {
      diff := a[i] as int - b[i] as int;
    } else {
      diff := ToLower(a[i]) as int - ToLower(b[i]) as int;
    }
  }
}
