/**
 * Strings as sequences of characters. IndexOf and ReplaceAll model the
 * QString::indexOf and QString::replace calls the display helper makes.
 * Join is the reference definition that the helper's `+=` loop building the
 * gas summary is proved equal to, and IntToString is the decimal text the
 * CNS and OTU fields are evidently meant to hold; the helper calls neither.
 */
module Text {

  /** `t` occurs in `s` starting at index `k`. */
  ghost predicate OccursAt(s: string, t: string, k: int)
  {
    0 <= k && k + |t| <= |s| && s[k..k + |t|] == t
  }

  /** `t` occurs somewhere in `s`. */
  ghost predicate Occurs(s: string, t: string)
  {
    exists k :: OccursAt(s, t, k)
  }

  predicate IsPrefix(t: string, s: string)
  {
    |t| <= |s| && s[..|t|] == t
  }

  /** QString::indexOf(t) searching from position 0: the first index of `t` in `s`, or -1. */
  function IndexOf(s: string, t: string): int
    decreases |s|
  {
    if IsPrefix(t, s) then 0
    else if s == [] then -1
    else
      var r := IndexOf(s[1..], t);
      if r < 0 then -1 else r + 1
  }

  lemma OccursAtShift(s: string, t: string, k: int)
    requires s != [] && 1 <= k
    ensures OccursAt(s, t, k) <==> OccursAt(s[1..], t, k - 1)
  {
    if k + |t| <= |s| {
      var here, there := s[k..k + |t|], s[1..][k - 1..k - 1 + |t|];
      forall m | 0 <= m < |t| ensures here[m] == there[m] {
        assert there[m] == s[1..][k - 1 + m];
      }
      assert here == there;
    }
  }

  /** IndexOf answers -1 exactly when `t` does not occur, and otherwise the first occurrence. */
  lemma {:induction false} IndexOfFirstOccurrence(s: string, t: string)
    ensures IndexOf(s, t) == -1 <==> !Occurs(s, t)
    ensures IndexOf(s, t) >= 0 ==>
      OccursAt(s, t, IndexOf(s, t)) && forall k :: 0 <= k < IndexOf(s, t) ==> !OccursAt(s, t, k)
    decreases |s|
  {
    if IsPrefix(t, s) {
      assert OccursAt(s, t, 0);
    } else if s == [] {
      assert |t| > 0;
      assert forall k :: !OccursAt(s, t, k);
    } else {
      IndexOfFirstOccurrence(s[1..], t);
      var r := IndexOf(s[1..], t);
      assert !OccursAt(s, t, 0);
      forall k | 1 <= k ensures OccursAt(s, t, k) <==> OccursAt(s[1..], t, k - 1) {
        OccursAtShift(s, t, k);
      }
      if r < 0 {
        forall k ensures !OccursAt(s, t, k) {
          if 1 <= k {
            assert !OccursAt(s[1..], t, k - 1);
          }
        }
      } else {
        assert OccursAt(s[1..], t, r);
        assert OccursAt(s, t, r + 1);
        forall k | 0 <= k < r + 1 ensures !OccursAt(s, t, k) {
          if 1 <= k {
            assert !OccursAt(s[1..], t, k - 1);
          }
        }
      }
    }
  }

  lemma OccursInExtension(s: string, u: string, t: string)
    requires Occurs(s, t)
    ensures Occurs(s + u, t)
  {
    var k :| OccursAt(s, t, k);
    assert (s + u)[k..k + |t|] == s[k..k + |t|];
    assert OccursAt(s + u, t, k);
  }

  lemma OccursAsSuffix(p: string, t: string)
    ensures Occurs(p + t, t)
  {
    assert (p + t)[|p|..|p| + |t|] == t;
    assert OccursAt(p + t, t, |p|);
  }

  /** The items in order with `sep` between neighbours: the reference definition of a separated list. */
  function Join(xs: seq<string>, sep: string): string
  {
    if |xs| == 0 then ""
    else if |xs| == 1 then xs[0]
    else Join(xs[..|xs| - 1], sep) + sep + xs[|xs| - 1]
  }

  lemma JoinSnoc(xs: seq<string>, x: string, sep: string)
    ensures Join(xs + [x], sep) == if xs == [] then x else Join(xs, sep) + sep + x
  {
    assert (xs + [x])[..|xs|] == xs;
  }

  function TotalLength(xs: seq<string>): nat
  {
    if xs == [] then 0 else TotalLength(xs[..|xs| - 1]) + |xs[|xs| - 1]|
  }

  /** A join of n items holds the items and exactly n - 1 separators. */
  lemma {:induction false} JoinLength(xs: seq<string>, sep: string)
    ensures |Join(xs, sep)| == TotalLength(xs) + (if xs == [] then 0 else (|xs| - 1) * |sep|)
  {
    if |xs| > 1 {
      JoinLength(xs[..|xs| - 1], sep);
    } else if |xs| == 1 {
      assert xs[..0] == [];
    }
  }

  /** A join never begins with a separator: it begins with its first item. */
  lemma {:induction false} JoinStartsWithFirst(xs: seq<string>, sep: string)
    requires xs != []
    ensures IsPrefix(xs[0], Join(xs, sep))
  {
    if |xs| > 1 {
      var init := xs[..|xs| - 1];
      JoinStartsWithFirst(init, sep);
      assert init[0] == xs[0];
      var rest := sep + xs[|xs| - 1];
      assert Join(xs, sep) == Join(init, sep) + rest;
      assert (Join(init, sep) + rest)[..|xs[0]|] == Join(init, sep)[..|xs[0]|];
    }
  }

  /** Every item of a join occurs in it. */
  lemma {:induction false} JoinContainsEach(xs: seq<string>, sep: string, j: int)
    requires 0 <= j < |xs|
    ensures Occurs(Join(xs, sep), xs[j])
  {
    if |xs| == 1 {
      OccursAsSuffix("", xs[0]);
      assert "" + xs[0] == xs[0];
    } else {
      var init := xs[..|xs| - 1];
      assert Join(xs, sep) == Join(init, sep) + sep + xs[|xs| - 1];
      if j == |xs| - 1 {
        OccursAsSuffix(Join(init, sep) + sep, xs[j]);
      } else {
        JoinContainsEach(init, sep, j);
        OccursInExtension(Join(init, sep), sep + xs[|xs| - 1], xs[j]);
        assert Join(init, sep) + (sep + xs[|xs| - 1]) == Join(xs, sep);
      }
    }
  }

  /** QString::replace(before, after): every occurrence of `before`, scanned left to right, becomes `after`. */
  function ReplaceAll(s: string, before: string, after: string): string
    requires before != []
    decreases |s|
  {
    if s == [] then []
    else if IsPrefix(before, s) then after + ReplaceAll(s[|before|..], before, after)
    else [s[0]] + ReplaceAll(s[1..], before, after)
  }

  /** A string without an occurrence of `before` is left as it is. */
  lemma {:induction false} ReplaceAllWithoutOccurrence(s: string, before: string, after: string)
    requires before != []
    requires !Occurs(s, before)
    ensures ReplaceAll(s, before, after) == s
    decreases |s|
  {
    if s != [] {
      if IsPrefix(before, s) {
        assert OccursAt(s, before, 0);
      }
      forall k | 0 <= k ensures !OccursAt(s[1..], before, k) {
        OccursAtShift(s, before, k + 1);
        assert !OccursAt(s, before, k + 1);
      }
      ReplaceAllWithoutOccurrence(s[1..], before, after);
    }
  }

  /** Replacing a character by text that does not hold it removes every occurrence of it. */
  lemma {:induction false} ReplaceAllRemovesChar(s: string, c: char, after: string)
    requires c !in after
    ensures c !in ReplaceAll(s, [c], after)
    decreases |s|
  {
    if s != [] {
      ReplaceAllRemovesChar(s[1..], c, after);
      if IsPrefix([c], s) {
        assert s[1..] == s[|[c]|..];
      } else {
        assert s[..1] == [s[0]];
      }
    }
  }

  /** A string without the character `c` is left as it is. */
  lemma ReplaceAllWithoutChar(s: string, c: char, after: string)
    ensures c !in s ==> ReplaceAll(s, [c], after) == s
  {
    if c !in s {
      forall k | 0 <= k < |s| ensures !OccursAt(s, [c], k) {
        assert s[k..k + 1] == [s[k]];
      }
      ReplaceAllWithoutOccurrence(s, [c], after);
    }
  }

  /** Replacing a one-character pattern works piece by piece: it distributes over concatenation. */
  lemma {:induction false} ReplaceAllCharConcat(a: string, b: string, c: char, after: string)
    ensures ReplaceAll(a + b, [c], after) == ReplaceAll(a, [c], after) + ReplaceAll(b, [c], after)
    decreases |a|
  {
    if a == [] {
      assert a + b == b;
    } else {
      ReplaceAllCharConcat(a[1..], b, c, after);
      assert (a + b)[1..] == a[1..] + b;
      if a[0] == c {
        assert IsPrefix([c], a) && IsPrefix([c], a + b);
      } else {
        FirstCharMismatch([c], a);
        FirstCharMismatch([c], a + b);
        assert [a[0]] + (ReplaceAll(a[1..], [c], after) + ReplaceAll(b, [c], after))
          == ([a[0]] + ReplaceAll(a[1..], [c], after)) + ReplaceAll(b, [c], after);
      }
    }
  }

  lemma ReplaceAllSplit(a: string, b: string, c: char, after: string)
    ensures ReplaceAll(a + [c] + b, [c], after) == ReplaceAll(a, [c], after) + after + ReplaceAll(b, [c], after)
  {
    ReplaceAllCharConcat(a + [c], b, c, after);
    ReplaceAllCharConcat(a, [c], c, after);
    assert IsPrefix([c], [c]) && [c][1..] == [];
  }

  /**
   * Each occurrence of the character `c` becomes `after`: text split at one
   * occurrence is the replaced text before it, `after`, and the replaced text
   * after it.
   */
  lemma ReplaceAllAtChar(s: string, c: char, after: string)
    ensures forall a, b :: s == a + [c] + b ==>
      ReplaceAll(s, [c], after) == ReplaceAll(a, [c], after) + after + ReplaceAll(b, [c], after)
  {
    forall a, b | s == a + [c] + b
      ensures ReplaceAll(s, [c], after) == ReplaceAll(a, [c], after) + after + ReplaceAll(b, [c], after)
    {
      ReplaceAllSplit(a, b, c, after);
    }
  }

  lemma FirstCharMismatch(t: string, s: string)
    requires t != [] && s != [] && t[0] != s[0]
    ensures !IsPrefix(t, s)
  {
    if |t| <= |s| {
      assert s[..|t|][0] == s[0];
    }
  }

  /** Turning line breaks into "<br>" can be undone on text that holds no '<'. */
  lemma {:induction false} LineBreaksRoundTrip(s: string)
    requires '<' !in s
    ensures ReplaceAll(ReplaceAll(s, "\n", "<br>"), "<br>", "\n") == s
    decreases |s|
  {
    if s != [] {
      var rest := ReplaceAll(s[1..], "\n", "<br>");
      LineBreaksRoundTrip(s[1..]);
      if s[0] == '\n' {
        assert IsPrefix("\n", s);
        assert ReplaceAll(s, "\n", "<br>") == "<br>" + rest;
        assert ("<br>" + rest)[4..] == rest;
        assert IsPrefix("<br>", "<br>" + rest);
      } else {
        assert !IsPrefix("\n", s);
        assert ReplaceAll(s, "\n", "<br>") == [s[0]] + rest;
        assert ([s[0]] + rest)[1..] == rest;
        assert s[0] != '<';
        FirstCharMismatch("<br>", [s[0]] + rest);
      }
    }
  }

  function DigitChar(d: int): char
    requires 0 <= d < 10
  {
    "0123456789"[d]
  }

  /** The decimal text of a non-negative integer: its digits, most significant first. */
  function NatToString(n: nat): string
    decreases n
  {
    if n < 10 then [DigitChar(n)] else NatToString(n / 10) + [DigitChar(n % 10)]
  }

  /** The decimal text of an integer, the text CNS and OTU are meant to show: a '-' before the digits of a negative value. */
  function IntToString(n: int): string
  {
    if n < 0 then "-" + NatToString(-n) else NatToString(n)
  }

  function DigitValue(c: char): int
  {
    c as int - '0' as int
  }

  function ParseNat(s: string): int
  {
    if s == [] then 0 else ParseNat(s[..|s| - 1]) * 10 + DigitValue(s[|s| - 1])
  }

  /** The reading of decimal text back into a number. */
  function ParseInt(s: string): int
  {
    if |s| > 0 && s[0] == '-' then -ParseNat(s[1..]) else ParseNat(s)
  }

  /**
   * The decimal rendering of a natural number is a non-empty run of digits,
   * of two or more from 10 on, with no leading zero except for 0 itself.
   */
  lemma {:induction false} NatToStringDigits(n: nat)
    ensures NatToString(n) != []
    ensures forall i :: 0 <= i < |NatToString(n)| ==> '0' <= NatToString(n)[i] <= '9'
    ensures n >= 10 ==> |NatToString(n)| >= 2
    ensures NatToString(n)[0] == '0' ==> n == 0
    decreases n
  {
    if n >= 10 {
      NatToStringDigits(n / 10);
      assert NatToString(n)[0] == NatToString(n / 10)[0];
    }
  }

  /** Reading back the decimal rendering of a natural number gives that number. */
  lemma {:induction false} NatToStringRoundTrip(n: nat)
    ensures ParseNat(NatToString(n)) == n
    decreases n
  {
    var s := NatToString(n);
    if n >= 10 {
      NatToStringRoundTrip(n / 10);
      assert s[..|s| - 1] == NatToString(n / 10);
      assert DigitValue(s[|s| - 1]) == n % 10;
    } else {
      assert s[..0] == [];
    }
  }

  /** Reading back the decimal rendering of any integer gives that integer. */
  lemma IntToStringRoundTrip(n: int)
    ensures ParseInt(IntToString(n)) == n
  {
    if n < 0 {
      NatToStringRoundTrip(-n);
      assert ("-" + NatToString(-n))[1..] == NatToString(-n);
    } else {
      NatToStringDigits(n);
      NatToStringRoundTrip(n);
    }
  }

  /**
   * The decimal rendering is one character long only for the values 0 to 9,
   * and its first digit is never a leading zero.
   */
  lemma IntToStringLength(n: int)
    ensures |IntToString(n)| >= 1
    ensures (n < 0 || n >= 10) ==> |IntToString(n)| >= 2
    ensures 0 <= n < 10 ==> IntToString(n) == [DigitChar(n)]
    ensures n > 0 ==> IntToString(n)[0] != '0'
    ensures n < 0 ==> IntToString(n)[0] == '-' && IntToString(n)[1] != '0'
  {
    if n < 0 {
      NatToStringDigits(-n);
    } else {
      NatToStringDigits(n);
    }
  }
}
