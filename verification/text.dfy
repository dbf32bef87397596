/**
 * Character- and string-level primitives the form script relies on:
 * the whitespace class shared by the regular-expression escape `\s` and
 * `String.prototype.trim`, trimming, the digit class `\d`, removal of
 * non-digits (`replace(/\D/g, '')`), first-occurrence search and the
 * ordering that the relational operators `<` and `<=` give two strings.
 */
module Text {

  /** ECMAScript WhiteSpace and LineTerminator code points: the set matched
      by `\s` and removed by `trim`. */
  predicate IsSpace(c: char)
  {
    var n := c as int;
    n == 0x09 || n == 0x0A || n == 0x0B || n == 0x0C || n == 0x0D || n == 0x20
    || n == 0xA0 || n == 0x1680 || (0x2000 <= n <= 0x200A)
    || n == 0x2028 || n == 0x2029 || n == 0x202F || n == 0x205F
    || n == 0x3000 || n == 0xFEFF
  }

  /** The class `\d`: the ASCII digits only. */
  predicate IsDigit(c: char)
  {
    '0' <= c <= '9'
  }

  predicate AllSpace(s: string)
  {
    forall k | 0 <= k < |s| :: IsSpace(s[k])
  }

  predicate NoSpace(s: string)
  {
    forall k | 0 <= k < |s| :: !IsSpace(s[k])
  }

  predicate AllDigits(s: string)
  {
    forall k | 0 <= k < |s| :: IsDigit(s[k])
  }

  /** Drops leading whitespace. */
  function TrimStart(s: string): string
  {
    if s != [] && IsSpace(s[0]) then TrimStart(s[1..]) else s
  }

  /** Drops trailing whitespace. */
  function TrimEnd(s: string): string
  {
    if s != [] && IsSpace(s[|s| - 1]) then TrimEnd(s[..|s| - 1]) else s
  }

  /** `String.prototype.trim`. */
  function Trim(s: string): string
  {
    TrimEnd(TrimStart(s))
  }

  /** What `TrimStart` leaves is a suffix of `s` that does not start with
      whitespace, and everything dropped was whitespace. */
  lemma {:induction false} TrimStartSpec(s: string)
    ensures |TrimStart(s)| <= |s| && TrimStart(s) == s[|s| - |TrimStart(s)|..]
    ensures TrimStart(s) != [] ==> !IsSpace(TrimStart(s)[0])
    ensures AllSpace(s[..|s| - |TrimStart(s)|])
  {
    if s != [] && IsSpace(s[0]) {
      TrimStartSpec(s[1..]);
      var r := TrimStart(s[1..]);
      assert s[1..][..|s| - 1 - |r|] == s[1..|s| - |r|];
    }
  }

  /** What `TrimEnd` leaves is a prefix of `s` that does not end with
      whitespace, and everything dropped was whitespace. */
  lemma {:induction false} TrimEndSpec(s: string)
    ensures |TrimEnd(s)| <= |s| && TrimEnd(s) == s[..|TrimEnd(s)|]
    ensures TrimEnd(s) != [] ==> !IsSpace(TrimEnd(s)[|TrimEnd(s)| - 1])
    ensures AllSpace(s[|TrimEnd(s)|..])
  {
    if s != [] && IsSpace(s[|s| - 1]) {
      TrimEndSpec(s[..|s| - 1]);
      var r := TrimEnd(s[..|s| - 1]);
      assert s[..|s| - 1][|r|..] + [s[|s| - 1]] == s[|r|..];
    }
  }

  /** `trim` returns a contiguous piece of `s` with only whitespace before
      and after it; it is empty exactly when `s` is all whitespace, and
      otherwise neither starts nor ends with whitespace. */
  lemma TrimSpec(s: string)
    ensures |Trim(s)| <= |s|
    ensures Trim(s) == [] <==> AllSpace(s)
    ensures Trim(s) != [] ==> !IsSpace(Trim(s)[0]) && !IsSpace(Trim(s)[|Trim(s)| - 1])
    ensures exists i, j | 0 <= i <= j <= |s| :: Trim(s) == s[i..j] && AllSpace(s[..i]) && AllSpace(s[j..])
  {
    var t := TrimStart(s);
    var r := TrimEnd(t);
    TrimStartSpec(s);
    TrimEndSpec(t);
    var i := |s| - |t|;
    var j := i + |r|;
    assert t == s[i..];
    assert r == s[i..j];
    assert s[j..] == t[|r|..];
    assert AllSpace(s[..i]) && AllSpace(s[j..]);
    if r == [] {
      forall k | 0 <= k < |s| ensures IsSpace(s[k]) {
        assert s[k] == s[..i][k];
      }
    }
  }

  /** Leading whitespace never survives: only the rest of the string decides. */
  lemma {:induction false} TrimStartAppend(x: string, q: string)
    ensures TrimStart(x + q) == if AllSpace(x) then TrimStart(q) else TrimStart(x) + q
  {
    if x != [] {
      assert (x + q)[0] == x[0];
      if IsSpace(x[0]) {
        assert (x + q)[1..] == x[1..] + q;
        TrimStartAppend(x[1..], q);
        assert AllSpace(x) <==> AllSpace(x[1..]) by {
          if AllSpace(x[1..]) {
            forall k | 0 <= k < |x| ensures IsSpace(x[k]) {
              if k > 0 { assert x[k] == x[1..][k - 1]; }
            }
          }
        }
      } else {
        assert !AllSpace(x);
      }
    } else {
      assert [] + q == q;
    }
  }

  lemma {:induction false} TrimStartAllSpace(s: string)
    requires AllSpace(s)
    ensures TrimStart(s) == []
  {
    if s != [] {
      TrimStartAllSpace(s[1..]);
    }
  }

  /** Whitespace appended at the end never survives. */
  lemma {:induction false} TrimEndSpaceSuffix(x: string, q: string)
    requires AllSpace(q)
    ensures TrimEnd(x + q) == TrimEnd(x)
  {
    if q == [] {
      assert x + q == x;
    } else {
      var xq := x + q;
      assert xq[|xq| - 1] == q[|q| - 1];
      assert xq[..|xq| - 1] == x + q[..|q| - 1];
      TrimEndSpaceSuffix(x, q[..|q| - 1]);
    }
  }

  /** Padding a value with whitespace on either side does not change what
      `trim` returns. */
  lemma {:induction false} TrimPadded(p: string, x: string, q: string)
    requires AllSpace(p) && AllSpace(q)
    ensures Trim(p + x + q) == Trim(x)
  {
    assert p + x + q == p + (x + q);
    TrimStartAppend(p, x + q);
    TrimStartAppend(x, q);
    if AllSpace(x) {
      TrimStartAllSpace(q);
      TrimStartAllSpace(x);
    } else {
      TrimEndSpaceSuffix(TrimStart(x), q);
    }
  }

  /** Trimming twice is trimming once. */
  lemma TrimIdempotent(s: string)
    ensures Trim(Trim(s)) == Trim(s)
  {
    TrimSpec(s);
    var r := Trim(s);
    assert TrimStart(r) == r;
    assert TrimEnd(r) == r;
  }

  /** `s.replace(/\D/g, '')`: keeps every digit occurrence of `s` and nothing
      else, so the result is all digits and counts each digit as often as `s`
      does. */
  function StripNonDigits(s: string): (r: string)
    ensures |r| <= |s|
    ensures AllDigits(r)
    ensures forall c | IsDigit(c) :: multiset(r)[c] == multiset(s)[c]
    ensures AllDigits(s) ==> r == s
  {
    if s == [] then []
    else
      var rest := StripNonDigits(s[1..]);
      assert s == [s[0]] + s[1..];
      if IsDigit(s[0]) then [s[0]] + rest else rest
  }

  /** Removing non-digits distributes over concatenation. */
  lemma {:induction false} StripNonDigitsAppend(s: string, t: string)
    ensures StripNonDigits(s + t) == StripNonDigits(s) + StripNonDigits(t)
  {
    if s == [] {
      assert s + t == t;
    } else {
      assert (s + t)[0] == s[0];
      assert (s + t)[1..] == s[1..] + t;
      StripNonDigitsAppend(s[1..], t);
    }
  }

  /** The number of positions of `s` holding a digit. */
  function DigitCount(s: string): nat
  {
    |set k | 0 <= k < |s| && IsDigit(s[k])|
  }

  /** Appending one character adds its position exactly when it is a digit. */
  lemma DigitPositionsSnoc(p: string, c: char)
    ensures (set k | 0 <= k < |p + [c]| && IsDigit((p + [c])[k])) ==
      (set k | 0 <= k < |p| && IsDigit(p[k])) + (if IsDigit(c) then {|p|} else {})
  {
  }

  /** Removing non-digits keeps one character per digit position. */
  lemma {:induction false} StripKeepsEveryDigit(s: string)
    ensures |StripNonDigits(s)| == DigitCount(s)
  {
    if s != [] {
      var p, c := s[..|s| - 1], s[|s| - 1];
      assert s == p + [c];
      StripKeepsEveryDigit(p);
      StripNonDigitsAppend(p, [c]);
      DigitPositionsSnoc(p, c);
      assert |p| !in set k | 0 <= k < |p| && IsDigit(p[k]);
      assert |StripNonDigits([c])| == if IsDigit(c) then 1 else 0 by {
        assert [c][1..] == [];
      }
    }
  }

  /** Position of the first `c` in `s` (`|s|` when there is none). */
  function IndexOf(s: string, c: char): (i: nat)
    ensures i <= |s|
    ensures i < |s| ==> s[i] == c
    ensures c !in s[..i]
  {
    if s == [] then 0
    else if s[0] == c then 0
    else
      var j := IndexOf(s[1..], c);
      assert s[..j + 1] == [s[0]] + s[1..][..j];
      j + 1
  }

  /** `a < b` on two strings: lexicographic order on their characters, a
      proper prefix coming first. */
  predicate JsLess(a: string, b: string)
  {
    if a == [] then b != []
    else b != [] && (if a[0] == b[0] then JsLess(a[1..], b[1..]) else a[0] < b[0])
  }

  lemma {:induction false} JsLessIrreflexive(a: string)
    ensures !JsLess(a, a)
  {
    if a != [] {
      JsLessIrreflexive(a[1..]);
    }
  }

  /** Any two strings are equal or ordered one way, and never both ways. */
  lemma {:induction false} JsLessTrichotomy(a: string, b: string)
    ensures a == b || JsLess(a, b) || JsLess(b, a)
    ensures !(JsLess(a, b) && JsLess(b, a))
  {
    if a != [] && b != [] && a[0] == b[0] {
      JsLessTrichotomy(a[1..], b[1..]);
      if a[1..] == b[1..] {
        assert a == [a[0]] + a[1..] && b == [b[0]] + b[1..];
      }
    }
  }

  lemma {:induction false} JsLessTransitive(a: string, b: string, c: string)
    requires JsLess(a, b) && JsLess(b, c)
    ensures JsLess(a, c)
  {
    if a != [] && a[0] == b[0] && b[0] == c[0] {
      JsLessTransitive(a[1..], b[1..], c[1..]);
    }
  }
}
