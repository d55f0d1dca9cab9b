/**
 * The handful of Python `str` operations the deployment script relies on,
 * over `string` (a sequence of Unicode scalar values, as a Python 3 `str`).
 */
module PyText {

  /** Python's `str.isspace()` for one character: the characters `str.strip()` removes. */
  predicate IsSpace(c: char) {
    var n := c as int;
    (9 <= n <= 13) || (28 <= n <= 32) || n == 0x85 || n == 0xA0 || n == 0x1680 ||
    (0x2000 <= n <= 0x200A) || n == 0x2028 || n == 0x2029 || n == 0x202F ||
    n == 0x205F || n == 0x3000
  }

  predicate IsAsciiChar(c: char) {
    (c as int) < 128
  }

  predicate IsAscii(s: string) {
    forall i :: 0 <= i < |s| ==> IsAsciiChar(s[i])
  }

  predicate AllSpace(s: string) {
    forall i :: 0 <= i < |s| ==> IsSpace(s[i])
  }

  /** No whitespace at either end: the shape every `str.strip()` result has. */
  predicate Trimmed(s: string) {
    s != [] ==> !IsSpace(s[0]) && !IsSpace(s[|s| - 1])
  }

  // ---------------------------------------------------------------- strip

  /** Length of the whitespace run at the front of `s`. */
  function LeadingSpace(s: string): (n: nat)
    ensures n <= |s|
  {
    if s == [] || !IsSpace(s[0]) then 0 else 1 + LeadingSpace(s[1..])
  }

  /** Length of the whitespace run at the back of `s`. */
  function TrailingSpace(s: string): (n: nat)
    ensures n <= |s|
  {
    if s == [] || !IsSpace(s[|s| - 1]) then 0 else 1 + TrailingSpace(s[..|s| - 1])
  }

  /** The leading run is whitespace and stops at the first other character. */
  lemma {:induction false} LeadingSpaceSpec(s: string)
    ensures AllSpace(s[..LeadingSpace(s)])
    ensures LeadingSpace(s) < |s| ==> !IsSpace(s[LeadingSpace(s)])
  {
    if s != [] && IsSpace(s[0]) {
      LeadingSpaceSpec(s[1..]);
      assert s[..LeadingSpace(s)] == [s[0]] + s[1..][..LeadingSpace(s[1..])];
    }
  }

  /** The trailing run is whitespace and stops at the last other character. */
  lemma {:induction false} TrailingSpaceSpec(s: string)
    ensures AllSpace(s[|s| - TrailingSpace(s)..])
    ensures TrailingSpace(s) < |s| ==> !IsSpace(s[|s| - 1 - TrailingSpace(s)])
  {
    if s != [] && IsSpace(s[|s| - 1]) {
      var u := s[..|s| - 1];
      TrailingSpaceSpec(u);
      assert s[|s| - TrailingSpace(s)..] == u[|u| - TrailingSpace(u)..] + [s[|s| - 1]];
    }
  }

  /**
   * Python's `str.strip()` with no argument: `s` without its leading and
   * trailing whitespace. The result is a slice of `s` that neither starts nor
   * ends with whitespace (StripSpec: everything outside it is whitespace).
   */
  function Strip(s: string): (r: string)
    ensures LeadingSpace(s) + |r| <= |s|
    ensures r == s[LeadingSpace(s)..LeadingSpace(s) + |r|]
    ensures Trimmed(r)
  {
    var t := s[LeadingSpace(s)..];
    LeadingSpaceSpec(s);
    TrailingSpaceSpec(t);
    t[..|t| - TrailingSpace(t)]
  }

  /** Everything Strip removes is whitespace. */
  lemma StripSpec(s: string)
    ensures AllSpace(s[..LeadingSpace(s)]) && AllSpace(s[LeadingSpace(s) + |Strip(s)|..])
  {
    var n := LeadingSpace(s);
    var t := s[n..];
    LeadingSpaceSpec(s);
    TrailingSpaceSpec(t);
    assert s[n + |Strip(s)|..] == t[|t| - TrailingSpace(t)..];
  }

  /**
   * Strip is the only way to cut `s` into whitespace, a trimmed middle and
   * whitespace: whatever such middle one finds is `Strip(s)`.
   */
  lemma StripUnique(a: string, m: string, b: string)
    requires AllSpace(a) && AllSpace(b) && Trimmed(m)
    ensures Strip(a + m + b) == m
  {
    var s := a + m + b;
    var r := Strip(s);
    var n := LeadingSpace(s);
    StripSpec(s);
    LeadingSpaceSpec(s);
    if m == [] {
      assert AllSpace(s) by {
        forall i | 0 <= i < |s| ensures IsSpace(s[i]) {
          if i < |a| { assert s[i] == a[i]; } else { assert s[i] == b[i - |a|]; }
        }
      }
    } else {
      assert s[|a|] == m[0];
      assert s[|a| + |m| - 1] == m[|m| - 1];
      assert r == s[|a|..|a| + |m|];
    }
  }

  lemma StripIdempotent(s: string)
    ensures Strip(Strip(s)) == Strip(s)
  {
    StripUnique([], Strip(s), []);
    assert [] + Strip(s) + [] == Strip(s);
  }

  lemma StripTrimmed(s: string)
    requires Trimmed(s)
    ensures Strip(s) == s
  {
    StripUnique([], s, []);
    assert [] + s + [] == s;
  }

  /** A slice of an ASCII string is ASCII; in particular Strip keeps ASCII. */
  lemma StripAscii(s: string)
    requires IsAscii(s)
    ensures IsAscii(Strip(s))
  {
    var n := LeadingSpace(s);
    var r := Strip(s);
    forall i | 0 <= i < |r| ensures IsAsciiChar(r[i]) {
      assert r[i] == s[n + i];
    }
  }

  // ---------------------------------------------------------- ascii filter

  /**
   * `s.encode('ascii', errors='ignore').decode()`: `s` with every character
   * outside ASCII dropped and the rest kept in order.
   */
  function FilterAscii(s: string): (r: string)
    ensures IsAscii(r)
    ensures |r| <= |s|
  {
    if s == [] then [] else (if IsAsciiChar(s[0]) then [s[0]] else []) + FilterAscii(s[1..])
  }

  /** The filter works character by character: it distributes over concatenation. */
  lemma {:induction false} FilterAsciiConcat(a: string, b: string)
    ensures FilterAscii(a + b) == FilterAscii(a) + FilterAscii(b)
  {
    if a == [] {
      assert a + b == b;
    } else {
      var h := if IsAsciiChar(a[0]) then [a[0]] else [];
      assert (a + b)[0] == a[0];
      assert (a + b)[1..] == a[1..] + b;
      FilterAsciiConcat(a[1..], b);
      calc {
        FilterAscii(a + b);
        h + FilterAscii(a[1..] + b);
        h + (FilterAscii(a[1..]) + FilterAscii(b));
        (h + FilterAscii(a[1..])) + FilterAscii(b);
      }
    }
  }

  /** A character outside ASCII is dropped, not replaced. */
  lemma FilterAsciiDrops(c: char)
    requires !IsAsciiChar(c)
    ensures FilterAscii([c]) == []
  {
  }

  /** One character: kept when it is ASCII, dropped otherwise. */
  lemma FilterAsciiChar(c: char)
    ensures FilterAscii([c]) == if IsAsciiChar(c) then [c] else []
  {
    assert [c][1..] == [];
  }

  /** On ASCII text the filter changes nothing. */
  lemma {:induction false} FilterAsciiIdentity(s: string)
    requires IsAscii(s)
    ensures FilterAscii(s) == s
  {
    if s != [] {
      FilterAsciiIdentity(s[1..]);
    }
  }

  // ------------------------------------------------------------- lower

  function LowerChar(c: char): (r: char)
    ensures 'A' <= c <= 'Z' ==> 'a' <= r <= 'z' && r as int - c as int == 32
    ensures !('A' <= c <= 'Z') ==> r == c
  {
    if 'A' <= c <= 'Z' then (c as int + 32) as char else c
  }

  /** Lowering twice is lowering once. */
  lemma LowerIdempotent(s: string)
    ensures Lower(Lower(s)) == Lower(s)
  {
    assert forall i :: 0 <= i < |s| ==> Lower(Lower(s))[i] == Lower(s)[i];
  }

  /**
   * `str.lower()` on ASCII letters: each of `A`-`Z` becomes its lower-case
   * letter, every other character is kept, and no upper-case ASCII letter is left.
   */
  function Lower(s: string): (r: string)
    ensures |r| == |s|
    ensures forall i :: 0 <= i < |s| ==> r[i] == LowerChar(s[i])
    ensures forall i :: 0 <= i < |r| ==> !('A' <= r[i] <= 'Z')
  {
    if s == [] then [] else [LowerChar(s[0])] + Lower(s[1..])
  }

  // ------------------------------------------------------- split & join

  function Count(s: string, c: char): (n: nat)
    ensures n <= |s|
  {
    if s == [] then 0 else (if s[0] == c then 1 else 0) + Count(s[1..], c)
  }

  /**
   * Python's `s.split(sep)` for a one-character separator: the pieces between
   * separators, one more than there are separators, none containing `sep`.
   * The empty string splits into one empty piece.
   */
  function Split(s: string, sep: char): (r: seq<string>)
    ensures |r| == Count(s, sep) + 1
  {
    if s == [] then [""]
    else
      var rest := Split(s[1..], sep);
      if s[0] == sep then [""] + rest else [[s[0]] + rest[0]] + rest[1..]
  }

  /** No piece contains the separator. */
  lemma {:induction false} SplitPieces(s: string, sep: char)
    ensures forall i :: 0 <= i < |Split(s, sep)| ==> sep !in Split(s, sep)[i]
  {
    if s != [] {
      SplitPieces(s[1..], sep);
    }
  }

  /** Python's `sep.join(ps)`. */
  function Join(ps: seq<string>, sep: char): string
    requires |ps| >= 1
  {
    if |ps| == 1 then ps[0] else ps[0] + [sep] + Join(ps[1..], sep)
  }

  /** Joining the pieces back with the separator gives the original text. */
  lemma {:induction false} SplitJoin(s: string, sep: char)
    ensures Join(Split(s, sep), sep) == s
  {
    if s != [] {
      var rest := Split(s[1..], sep);
      SplitJoin(s[1..], sep);
      if s[0] != sep {
        var r := Split(s, sep);
        assert r[1..] == rest[1..];
        if |rest| > 1 {
          assert Join(rest, sep) == rest[0] + [sep] + Join(rest[1..], sep);
        }
      }
    }
  }

  lemma {:induction false} SplitNoSep(s: string, sep: char)
    requires sep !in s
    ensures Split(s, sep) == [s]
  {
    if s != [] {
      assert sep !in s[1..];
      SplitNoSep(s[1..], sep);
      assert [s[0]] + s[1..] == s;
    }
  }

  lemma {:induction false} SplitPrefix(x: string, sep: char, y: string)
    requires sep !in x
    ensures Split(x + [sep] + y, sep) == [x] + Split(y, sep)
  {
    var s := x + [sep] + y;
    if x == [] {
      assert s[1..] == y;
    } else {
      assert s[1..] == x[1..] + [sep] + y;
      assert sep !in x[1..];
      SplitPrefix(x[1..], sep, y);
      assert [x[0]] + x[1..] == x;
    }
  }

  /** Splitting a join of separator-free pieces gives the pieces back. */
  lemma {:induction false} JoinSplit(ps: seq<string>, sep: char)
    requires |ps| >= 1
    requires forall i :: 0 <= i < |ps| ==> sep !in ps[i]
    ensures Split(Join(ps, sep), sep) == ps
  {
    if |ps| == 1 {
      SplitNoSep(ps[0], sep);
    } else {
      JoinSplit(ps[1..], sep);
      SplitPrefix(ps[0], sep, Join(ps[1..], sep));
    }
  }

  lemma {:induction false} JoinConcat(ps: seq<string>, qs: seq<string>, sep: char)
    requires |ps| >= 1 && |qs| >= 1
    ensures Join(ps + qs, sep) == Join(ps, sep) + [sep] + Join(qs, sep)
  {
    if |ps| > 1 {
      assert (ps + qs)[1..] == ps[1..] + qs;
      JoinConcat(ps[1..], qs, sep);
    } else {
      assert (ps + qs)[1..] == qs;
    }
  }

  /** Regrouping a concatenation of three strings. */
  lemma Assoc(x: string, y: string, z: string)
    ensures x + (y + z) == x + y + z
  {
  }

  /** A separator in the text cuts the split in two. */
  lemma SplitAround(x: string, sep: char, y: string)
    ensures Split(x + [sep] + y, sep) == Split(x, sep) + Split(y, sep)
  {
    var ps := Split(x, sep) + Split(y, sep);
    SplitPieces(x, sep);
    SplitPieces(y, sep);
    forall i | 0 <= i < |ps| ensures sep !in ps[i] {
      if i >= |Split(x, sep)| { assert ps[i] == Split(y, sep)[i - |Split(x, sep)|]; }
    }
    JoinConcat(Split(x, sep), Split(y, sep), sep);
    SplitJoin(x, sep);
    SplitJoin(y, sep);
    JoinSplit(ps, sep);
  }

  /** A separator occurs in `s` exactly when the split has a second piece. */
  lemma {:induction false} SplitHasSecond(s: string, sep: char)
    ensures |Split(s, sep)| >= 2 <==> sep in s
  {
    if s != [] {
      SplitHasSecond(s[1..], sep);
      assert s == [s[0]] + s[1..];
    }
  }
}
