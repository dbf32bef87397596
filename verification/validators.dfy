/**
 * The two format validators whose patterns are regular expressions:
 * `isValidEmail` (`^[^\s@]+@[^\s@]+\.[^\s@]+$`) and `isValidPhone`
 * (`^[\d\s\-\+\(\)]+$` plus at least seven digits). Each pattern is read
 * here as a plain statement about positions in the string.
 */
module Validators {
  import opened Text

  /** The class `[^\s@]`. */
  predicate EmailChar(c: char)
  {
    !IsSpace(c) && c != '@'
  }

  /** The email pattern, split where the regular expression splits it: a
      non-empty run before `@` at position `at`, a non-empty run between it
      and a `.` at position `dot`, and a non-empty run after that dot; every
      position other than `at` is in `[^\s@]`. */
  predicate IsValidEmail(s: string)
  {
    exists at, dot | 0 < at < |s| && at + 1 < dot < |s| - 1 ::
      && s[at] == '@'
      && s[dot] == '.'
      && forall k | 0 <= k < |s| && k != at :: EmailChar(s[k])
  }

  /** A `.` that is neither the first nor the last character. */
  predicate HasInnerDot(d: string)
  {
    exists k | 0 < k < |d| - 1 :: d[k] == '.'
  }

  lemma CountAround(s: string, i: nat)
    requires i < |s|
    ensures multiset(s)[s[i]] == multiset(s[..i])[s[i]] + 1 + multiset(s[i + 1..])[s[i]]
  {
    assert s == s[..i] + [s[i]] + s[i + 1..];
  }

  /** The email validator accepts exactly the strings that have one `@`, a
      non-empty part before it, no whitespace at all, and a part after it that
      holds a `.` that is neither its first nor its last character. */
  lemma {:induction false} EmailCharacterisation(s: string)
    ensures IsValidEmail(s) <==>
      && multiset(s)['@'] == 1
      && NoSpace(s)
      && 0 < IndexOf(s, '@') < |s|
      && HasInnerDot(s[IndexOf(s, '@') + 1..])
  {
    var i := IndexOf(s, '@');
    if IsValidEmail(s) {
      var at, dot :| 0 < at < |s| && at + 1 < dot < |s| - 1
        && s[at] == '@' && s[dot] == '.'
        && forall k | 0 <= k < |s| && k != at :: EmailChar(s[k]);
      assert i == at;
      CountAround(s, at);
      assert '@' !in s[at + 1..] by {
        forall j | at < j < |s| ensures s[j] != '@' {
          assert EmailChar(s[j]);
        }
      }
      assert s[at + 1..][dot - at - 1] == '.';
      assert NoSpace(s) by {
        forall k | 0 <= k < |s| ensures !IsSpace(s[k]) {
          if k != at { assert EmailChar(s[k]); }
        }
      }
    }
    if && multiset(s)['@'] == 1 && NoSpace(s) && 0 < i < |s|
       && HasInnerDot(s[i + 1..])
    {
      var d := s[i + 1..];
      var k :| 0 < k < |d| - 1 && d[k] == '.';
      CountAround(s, i);
      assert multiset(s[i + 1..])['@'] == 0;
      forall j | 0 <= j < |s| && j != i ensures EmailChar(s[j]) {
        if j < i {
          assert s[j] == s[..i][j];
        } else {
          assert s[j] == s[i + 1..][j - i - 1];
        }
      }
      assert s[i + 1 + k] == '.';
    }
  }

  /** The class `[\d\s\-\+\(\)]`. */
  predicate PhoneChar(c: char)
  {
    IsDigit(c) || IsSpace(c) || c == '-' || c == '+' || c == '(' || c == ')'
  }

  /** The phone validator: a non-empty string drawn from the phone class
      holding at least seven digits. */
  predicate IsValidPhone(s: string)
  {
    && |s| > 0
    && (forall k | 0 <= k < |s| :: PhoneChar(s[k]))
    && |StripNonDigits(s)| >= 7
  }

  /** The phone validator accepts exactly the non-empty strings drawn from
      the phone class that hold a digit in at least seven positions. */
  lemma PhoneCharacterisation(s: string)
    ensures IsValidPhone(s) <==>
      |s| > 0 && (forall k | 0 <= k < |s| :: PhoneChar(s[k])) && DigitCount(s) >= 7
  {
    StripKeepsEveryDigit(s);
  }

  /** Separators never count towards the seven digits: appending any run of
      non-digit phone characters to a string leaves the verdict as it was. */
  lemma {:induction false} PhoneIgnoresSeparators(s: string, sep: string)
    requires forall k | 0 <= k < |sep| :: PhoneChar(sep[k]) && !IsDigit(sep[k])
    ensures IsValidPhone(s + sep) == IsValidPhone(s)
  {
    StripNonDigitsAppend(s, sep);
    NoDigitsStripToEmpty(sep);
    assert StripNonDigits(s + sep) == StripNonDigits(s);
    var t := s + sep;
    if forall k | 0 <= k < |s| :: PhoneChar(s[k]) {
      forall k | 0 <= k < |t| ensures PhoneChar(t[k]) {
        if k >= |s| { assert t[k] == sep[k - |s|]; }
      }
    } else {
      var k :| 0 <= k < |s| && !PhoneChar(s[k]);
      assert t[k] == s[k];
    }
  }

  lemma {:induction false} NoDigitsStripToEmpty(s: string)
    requires forall k | 0 <= k < |s| :: !IsDigit(s[k])
    ensures StripNonDigits(s) == []
  {
    if s != [] {
      NoDigitsStripToEmpty(s[1..]);
    }
  }

  /** A string of seven or more plain digits is a phone number, and no
      accepted phone number is shorter than seven characters. */
  lemma PhoneBounds(s: string)
    ensures IsValidPhone(s) ==> |s| >= 7
    ensures AllDigits(s) && |s| >= 7 ==> IsValidPhone(s)
  {
  }
}
