/** Grammar symbols: classification by spelling, the byte-wise string order that
    `std::set<std::string>` uses, and sorted duplicate-free symbol sets. */
module Symbols {

  /** The epsilon marker of a production's right-hand side. */
  const Epsilon: string := "#"

  /** The end-of-input marker appended to every token stream. */
  const EndMarker: string := "$"

  /** `isupper` in the C locale. */
  predicate IsUpper(c: char) {
    'A' <= c <= 'Z'
  }

  /** A symbol whose first character is an upper-case letter. The first character of an
      empty C++ string is its terminating NUL, which is not upper-case. */
  predicate StartsUpper(s: string) {
    |s| > 0 && IsUpper(s[0])
  }

  /** Terminal classification by spelling (Grammar::isTerminal). */
  predicate IsTerminal(s: string)
    ensures s == Epsilon ==> !IsTerminal(s)
    ensures StartsUpper(s) ==> !IsTerminal(s)
    ensures !StartsUpper(s) && s != Epsilon ==> IsTerminal(s)
  {
    s != Epsilon && !StartsUpper(s)
  }

  /** Lexicographic order of `std::string::operator<`: the first differing character
      decides, and a proper prefix is smaller. */
  predicate StrLess(a: string, b: string)
    decreases |a|
  {
    if |a| == 0 then |b| > 0
    else if |b| == 0 then false
    else if a[0] != b[0] then a[0] < b[0]
    else StrLess(a[1..], b[1..])
  }

  lemma {:induction false} StrLessIrreflexive(a: string)
    ensures !StrLess(a, a)
    decreases |a|
  {
    if |a| > 0 {
      StrLessIrreflexive(a[1..]);
    }
  }

  lemma {:induction false} StrLessTransitive(a: string, b: string, c: string)
    requires StrLess(a, b) && StrLess(b, c)
    ensures StrLess(a, c)
    decreases |a|
  {
    if |a| > 0 && |b| > 0 && |c| > 0 && a[0] == b[0] && b[0] == c[0] {
      StrLessTransitive(a[1..], b[1..], c[1..]);
    }
  }

  lemma {:induction false} StrLessTotal(a: string, b: string)
    requires a != b
    ensures StrLess(a, b) || StrLess(b, a)
    decreases |a|
  {
    if |a| > 0 && |b| > 0 && a[0] == b[0] {
      assert a == [a[0]] + a[1..] && b == [b[0]] + b[1..];
      StrLessTotal(a[1..], b[1..]);
    }
  }

  lemma {:induction false} StrLessAsymmetric(a: string, b: string)
    requires StrLess(a, b)
    ensures !StrLess(b, a)
  {
    if StrLess(b, a) {
      StrLessTransitive(a, b, a);
      StrLessIrreflexive(a);
    }
  }

  predicate StrictlySorted(s: seq<string>) {
    forall i, j :: 0 <= i < j < |s| ==> StrLess(s[i], s[j])
  }

  /** A `std::set<std::string>`: its elements in iteration (ascending) order. */
  type SymbolSet = s: seq<string> | StrictlySorted(s) witness []

  function Elems(s: seq<string>): set<string> {
    set x | x in s
  }

  /** `std::set::insert`: adds `x` at its place in the order, or leaves the set alone when
      `x` is already there. */
  function SetInsert(s: SymbolSet, x: string): (r: SymbolSet)
    ensures Elems(r) == Elems(s) + {x}
    ensures x in s ==> r == s
    ensures forall i :: 0 <= i < |r| ==> r[i] == x || r[i] in s
    decreases |s|
  {
    if |s| == 0 then [x]
    else if s[0] == x then s
    else if StrLess(x, s[0]) then
      var r := [x] + s;
      assert x !in s by {
        StrLessAsymmetric(x, s[0]);
      }
      assert StrictlySorted(r) by {
        forall i, j | 0 <= i < j < |r| ensures StrLess(r[i], r[j]) {
          if i == 0 && j > 1 {
            StrLessTransitive(x, s[0], s[j - 1]);
          }
        }
      }
      r
    else
      var rest: SymbolSet := s[1..];
      var tail := SetInsert(rest, x);
      var r := [s[0]] + tail;
      assert StrictlySorted(r) by {
        StrLessTotal(x, s[0]);
        forall i, j | 0 <= i < j < |r| ensures StrLess(r[i], r[j]) {
          if i == 0 {
            assert tail[j - 1] == x || tail[j - 1] in rest;
          }
        }
      }
      assert Elems(r) == Elems(s) + {x} by {
        assert s == [s[0]] + rest;
      }
      r
  }

  /** Position of `x` in the iteration order of the set (`distance(begin, find(x))`),
      or -1 when `x` is absent. */
  function IndexOf(s: SymbolSet, x: string): (r: int)
    ensures -1 <= r < |s|
    ensures r == -1 <==> x !in s
    ensures r >= 0 ==> s[r] == x
    ensures forall i :: 0 <= i < |s| && s[i] == x ==> i == r
    decreases |s|
  {
    if |s| == 0 then -1
    else if s[0] == x then
      assert forall i :: 0 < i < |s| ==> StrLess(s[0], s[i]);
      StrLessIrreflexive(x);
      0
    else
      var rest: SymbolSet := s[1..];
      var k := IndexOf(rest, x);
      if k == -1 then -1 else k + 1
  }
}
