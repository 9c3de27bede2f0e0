/** The few `java.lang.String` and `java.lang.Long` operations the core relies
    on, restricted to ASCII: `toLowerCase`, `contains`, `startsWith`,
    `split` on a one-character separator, and `Long.parseLong`. */
module Text {
  import opened Wrappers

  /** ASCII lower-casing of one character. */
  function LowerChar(c: char): char {
    if 'A' <= c <= 'Z' then (c as int + 32) as char else c
  }

  /** `String.toLowerCase` on ASCII text: every character lowered, nothing moved. */
  function Lower(s: string): (r: string)
    ensures |r| == |s|
    ensures forall i :: 0 <= i < |s| ==> r[i] == LowerChar(s[i])
  {
    if s == [] then [] else [LowerChar(s[0])] + Lower(s[1..])
  }

  /** Lowering commutes with taking a slice. */
  lemma {:induction false} LowerSlice(s: string, i: nat, j: nat)
    requires i <= j <= |s|
    ensures Lower(s)[i..j] == Lower(s[i..j])
  {
    var a, b := Lower(s)[i..j], Lower(s[i..j]);
    LowerAt(s, i, j);
    assert forall k :: 0 <= k < |a| ==> a[k] == b[k];
  }

  /** The characters of a lowered slice, position by position. */
  lemma LowerAt(s: string, i: nat, j: nat)
    requires i <= j <= |s|
    ensures forall k :: 0 <= k < j - i ==> Lower(s[i..j])[k] == LowerChar(s[i + k])
  {
  }

  /** Lowering twice is lowering once. */
  lemma LowerIdempotent(s: string)
    ensures Lower(Lower(s)) == Lower(s)
  {
  }

  /** `String.startsWith`. */
  predicate StartsWith(s: string, prefix: string) {
    |prefix| <= |s| && s[..|prefix|] == prefix
  }

  /** `pat` occurs in `s` starting at position `i`. */
  predicate OccursAt(s: string, pat: string, i: int) {
    0 <= i <= |s| - |pat| && s[i..i + |pat|] == pat
  }

  /** `String.contains`: `pat` occurs at some position of `s`. */
  function Contains(s: string, pat: string): (r: bool)
    ensures r <==> exists i :: OccursAt(s, pat, i)
  {
    if StartsWith(s, pat) then
      assert OccursAt(s, pat, 0);
      true
    else if |s| == 0 then
      assert forall i :: !OccursAt(s, pat, i);
      false
    else
      var r := Contains(s[1..], pat);
      assert r ==> exists i :: OccursAt(s, pat, i) by {
        if r {
          var k :| OccursAt(s[1..], pat, k);
          assert s[1..][k..k + |pat|] == s[k + 1..k + 1 + |pat|];
          assert OccursAt(s, pat, k + 1);
        }
      }
      assert (exists i :: OccursAt(s, pat, i)) ==> r by {
        if exists i :: OccursAt(s, pat, i) {
          var k :| OccursAt(s, pat, k);
          assert k != 0;
          assert s[1..][k - 1..k - 1 + |pat|] == s[k..k + |pat|];
          assert OccursAt(s[1..], pat, k - 1);
        }
      }
      r
  }

  /** Every piece of `s` between occurrences of `sep`, empty pieces included:
      the raw material of `String.split`. */
  function SplitAll(s: string, sep: char): (r: seq<string>)
    ensures |r| >= 1
  {
    if s == [] then [[]]
    else
      var rest := SplitAll(s[1..], sep);
      if s[0] == sep then [[]] + rest else [[s[0]] + rest[0]] + rest[1..]
  }

  /** The inverse of `SplitAll`: the pieces glued back with `sep`. */
  function Join(pieces: seq<string>, sep: char): string
    requires |pieces| >= 1
  {
    if |pieces| == 1 then pieces[0] else pieces[0] + [sep] + Join(pieces[1..], sep)
  }

  /** `s.split(sep)` as the JDK does it: the whole string when `sep` does not
      occur, otherwise every piece with the trailing empty pieces removed. */
  function JavaSplit(s: string, sep: char): seq<string> {
    if sep !in s then [s] else DropTrailingEmpty(SplitAll(s, sep))
  }

  function DropTrailingEmpty(ps: seq<string>): (r: seq<string>)
    ensures |r| <= |ps| && r == ps[..|r|]
    ensures r != [] ==> r[|r| - 1] != []
    ensures forall i :: |r| <= i < |ps| ==> ps[i] == []
  {
    if ps == [] then []
    else if ps[|ps| - 1] == [] then DropTrailingEmpty(ps[..|ps| - 1])
    else ps
  }

  lemma {:induction false} SplitAllPrefix(p: string, t: string, sep: char)
    requires sep !in p
    ensures SplitAll(p + t, sep) == [p + SplitAll(t, sep)[0]] + SplitAll(t, sep)[1..]
  {
    if p == [] {
      assert p + t == t;
      assert p + SplitAll(t, sep)[0] == SplitAll(t, sep)[0];
      assert SplitAll(t, sep) == [SplitAll(t, sep)[0]] + SplitAll(t, sep)[1..];
    } else {
      assert (p + t)[1..] == p[1..] + t;
      SplitAllPrefix(p[1..], t, sep);
      assert [p[0]] + (p[1..] + SplitAll(t, sep)[0]) == p + SplitAll(t, sep)[0];
    }
  }

  /** Splitting what `Join` glued gives the pieces back, provided no piece
      contains the separator. */
  lemma {:induction false} SplitJoin(pieces: seq<string>, sep: char)
    requires |pieces| >= 1
    requires forall i :: 0 <= i < |pieces| ==> sep !in pieces[i]
    ensures SplitAll(Join(pieces, sep), sep) == pieces
  {
    if |pieces| == 1 {
      SplitAllPrefix(pieces[0], [], sep);
      assert pieces[0] + [] == pieces[0];
    } else {
      var rest := Join(pieces[1..], sep);
      assert pieces[0] + [sep] + rest == pieces[0] + ([sep] + rest);
      SplitAllPrefix(pieces[0], [sep] + rest, sep);
      assert ([sep] + rest)[1..] == rest;
      assert SplitAll([sep] + rest, sep) == [[]] + SplitAll(rest, sep);
      SplitJoin(pieces[1..], sep);
      assert pieces[0] + [] == pieces[0];
      assert pieces == [pieces[0]] + pieces[1..];
    }
  }

  /** `Join` of two or more pieces contains the separator. */
  lemma JoinHasSeparator(pieces: seq<string>, sep: char)
    requires |pieces| >= 2
    ensures sep in Join(pieces, sep)
  {
    assert Join(pieces, sep)[|pieces[0]|] == sep;
  }

  /** On pieces that are all non-empty and free of the separator, the JDK's
      split undoes `Join`. */
  lemma JavaSplitJoin(pieces: seq<string>, sep: char)
    requires |pieces| >= 1
    requires forall i :: 0 <= i < |pieces| ==> sep !in pieces[i] && pieces[i] != []
    ensures JavaSplit(Join(pieces, sep), sep) == pieces
  {
    SplitJoin(pieces, sep);
    if |pieces| >= 2 {
      JoinHasSeparator(pieces, sep);
    }
  }

  predicate IsDigit(c: char) {
    '0' <= c <= '9'
  }

  predicate AllDigits(s: string) {
    forall i :: 0 <= i < |s| ==> IsDigit(s[i])
  }

  /** The value of a string of decimal digits, most significant first. */
  function DigitsValue(s: string): nat
    requires AllDigits(s)
  {
    if s == [] then 0
    else DigitsValue(s[..|s| - 1]) * 10 + (s[|s| - 1] as int - '0' as int)
  }

  const MinLong: int := -0x8000_0000_0000_0000
  const MaxLong: int := 0x7FFF_FFFF_FFFF_FFFF

  /** `Long.parseLong` (radix 10, ASCII digits): an optional sign, at least
      one digit, and a value that fits in 64 bits; anything else is None
      (a NumberFormatException). */
  function ParseLong(s: string): (r: Option<int>)
    ensures r.Some? ==> MinLong <= r.value <= MaxLong
  {
    if |s| == 0 then None
    else
      var digits := if s[0] == '-' || s[0] == '+' then s[1..] else s;
      if |digits| == 0 || !AllDigits(digits) then None
      else
        var magnitude: int := DigitsValue(digits);
        var v := if s[0] == '-' then -magnitude else magnitude;
        if MinLong <= v <= MaxLong then Some(v) else None
  }

  /** The decimal representation of a natural number, without sign or
      leading zeros. */
  function Decimal(n: nat): (r: string)
    ensures |r| >= 1 && AllDigits(r)
  {
    if n < 10 then ['0' + n as char]
    else Decimal(n / 10) + ['0' + (n % 10) as char]
  }

  lemma {:induction false} DecimalValue(n: nat)
    ensures DigitsValue(Decimal(n)) == n
  {
    if n >= 10 {
      var d := Decimal(n);
      assert d[..|d| - 1] == Decimal(n / 10);
      DecimalValue(n / 10);
    }
  }

  /** `Long.parseLong` reads back what `Decimal` wrote, for every value a
      non-negative long can hold. */
  lemma ParseDecimal(n: nat)
    requires n <= MaxLong
    ensures ParseLong(Decimal(n)) == Some(n)
  {
    DecimalValue(n);
  }

  /** ... and a minus sign in front negates it, down to the smallest long. */
  lemma ParseNegativeDecimal(n: nat)
    requires n <= -MinLong
    ensures ParseLong("-" + Decimal(n)) == Some(-(n as int))
  {
    assert ("-" + Decimal(n))[1..] == Decimal(n);
    DecimalValue(n);
  }

  /** Every value beyond the largest long is rejected, with or without a
      plus sign, and so is every value below the smallest. */
  lemma ParseLongOverflow(n: nat)
    ensures n > MaxLong ==> ParseLong(Decimal(n)) == None && ParseLong("+" + Decimal(n)) == None
    ensures n > -MinLong ==> ParseLong("-" + Decimal(n)) == None
  {
    assert ("-" + Decimal(n))[1..] == Decimal(n);
    assert ("+" + Decimal(n))[1..] == Decimal(n);
    DecimalValue(n);
  }
}
