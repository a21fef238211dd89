/** The password policy of the sign-up handler.

    The source states it as one anchored JavaScript regular expression,

        ^(?=.*[a-z])(?=.*[A-Z])(?=.*\d)(?=.*[@$!%*?&])[A-Za-z\d@$!%*?&]{8,}$

    tested against the whole password (no flags: `.` stops at line
    terminators, `\d` is 0-9 only, `[a-z]` is case-sensitive).
    ValidPassword follows the regex construct by construct; MeetsPolicy says
    the same thing with explicit character-class membership, and
    ValidPasswordIffPolicy proves the two agree on every string. */
module PasswordPolicy {

  import opened AuthTypes

  /** The four classes the lookaheads ask for. */
  datatype CharClass = Lower | Upper | Digit | Special

  /** The special characters of `[@$!%*?&]`. */
  const Specials: string := "@$!%*?&"

  /** The `{8,}` bound. */
  const MinLength: nat := 8

  predicate InClass(c: char, k: CharClass)
  {
    match k
    case Lower => 'a' <= c <= 'z'
    case Upper => 'A' <= c <= 'Z'
    case Digit => '0' <= c <= '9'
    case Special => c in Specials
  }

  /** `[A-Za-z\d@$!%*?&]`: the only characters a password may contain. */
  predicate InAlphabet(c: char)
  {
    InClass(c, Lower) || InClass(c, Upper) || InClass(c, Digit) || InClass(c, Special)
  }

  /** The characters JavaScript's `.` does not match when the `s` flag is off. */
  predicate IsLineTerminator(c: char)
  {
    c == '\n' || c == '\r' || c == '\U{2028}' || c == '\U{2029}'
  }

  // ---------------------------------------------------------------------------
  // The regex, construct by construct

  /** `.*[k]` anchored at the start of `s`: either `.*` takes nothing and the
      first character is in class k, or `.*` takes the first character (which
      must not be a line terminator) and the pattern matches the rest. This is
      what the lookahead `(?=.*[k])` asks of the input at position 0. */
  predicate DotStarThen(s: string, k: CharClass)
    decreases |s|
  {
    |s| > 0 && (InClass(s[0], k) || (!IsLineTerminator(s[0]) && DotStarThen(s[1..], k)))
  }

  /** `[A-Za-z\d@$!%*?&]{n,}$`: all of `s` is made of alphabet characters, at
      least n of them. */
  predicate RepeatToEnd(s: string, n: nat)
    decreases |s|
  {
    if |s| == 0 then n == 0
    else InAlphabet(s[0]) && RepeatToEnd(s[1..], if n == 0 then 0 else n - 1)
  }

  /** validatePassword: the four lookaheads at position 0, then the repeated
      class up to the end of the input. */
  predicate ValidPassword(p: string)
  {
    && DotStarThen(p, Lower)
    && DotStarThen(p, Upper)
    && DotStarThen(p, Digit)
    && DotStarThen(p, Special)
    && RepeatToEnd(p, MinLength)
  }

  /** What `regex.test(v)` tests when the request carries no password: the
      argument is converted to a string, and `undefined` becomes "undefined". */
  function RegexInput(password: Option<string>): string
  {
    match password
    case Some(p) => p
    case None => "undefined"
  }

  // ---------------------------------------------------------------------------
  // The same policy by character-class membership

  predicate Contains(p: string, k: CharClass)
  {
    exists i :: 0 <= i < |p| && InClass(p[i], k)
  }

  predicate AllInAlphabet(p: string)
  {
    forall i :: 0 <= i < |p| ==> InAlphabet(p[i])
  }

  predicate NoTerminatorBefore(s: string, n: int)
  {
    forall j :: 0 <= j < n && j < |s| ==> !IsLineTerminator(s[j])
  }

  /** At least eight characters, all from the alphabet, with at least one
      lowercase letter, one uppercase letter, one digit and one special. */
  predicate MeetsPolicy(p: string)
  {
    && |p| >= MinLength
    && AllInAlphabet(p)
    && Contains(p, Lower)
    && Contains(p, Upper)
    && Contains(p, Digit)
    && Contains(p, Special)
  }

  // ---------------------------------------------------------------------------
  // Lemmas

  /** `.*[k]` matches exactly when some character of class k occurs with no
      line terminator before it. */
  lemma {:induction false} DotStarThenFinds(s: string, k: CharClass)
    ensures DotStarThen(s, k) <==>
              exists i :: 0 <= i < |s| && InClass(s[i], k) && NoTerminatorBefore(s, i)
    decreases |s|
  {
    if |s| == 0 {
      return;
    }
    DotStarThenFinds(s[1..], k);
    if DotStarThen(s, k) {
      if InClass(s[0], k) {
        assert InClass(s[0], k) && NoTerminatorBefore(s, 0);
      } else {
        var i :| 0 <= i < |s[1..]| && InClass(s[1..][i], k) && NoTerminatorBefore(s[1..], i);
        assert InClass(s[i + 1], k);
        forall j | 0 <= j < i + 1 && j < |s|
          ensures !IsLineTerminator(s[j])
        {
          if j > 0 {
            assert s[j] == s[1..][j - 1];
          }
        }
      }
    }
    if exists i :: 0 <= i < |s| && InClass(s[i], k) && NoTerminatorBefore(s, i) {
      var i :| 0 <= i < |s| && InClass(s[i], k) && NoTerminatorBefore(s, i);
      if i > 0 {
        assert !IsLineTerminator(s[0]);
        assert InClass(s[1..][i - 1], k);
        assert NoTerminatorBefore(s[1..], i - 1) by {
          forall j | 0 <= j < i - 1 && j < |s[1..]|
            ensures !IsLineTerminator(s[1..][j])
          {
            assert s[1..][j] == s[j + 1];
          }
        }
      }
    }
  }

  /** `[alphabet]{n,}$` matches exactly the alphabet strings of length n or more. */
  lemma {:induction false} RepeatToEndIff(s: string, n: nat)
    ensures RepeatToEnd(s, n) <==> |s| >= n && AllInAlphabet(s)
    decreases |s|
  {
    if |s| > 0 {
      var n' := if n == 0 then 0 else n - 1;
      RepeatToEndIff(s[1..], n');
      if AllInAlphabet(s) {
        forall i | 0 <= i < |s[1..]| ensures InAlphabet(s[1..][i]) {
          assert s[1..][i] == s[i + 1];
        }
      }
      if InAlphabet(s[0]) && AllInAlphabet(s[1..]) {
        forall i | 0 <= i < |s| ensures InAlphabet(s[i]) {
          if i > 0 {
            assert s[i] == s[1..][i - 1];
          }
        }
      }
    }
  }

  /** Alphabet characters are never line terminators, so on an alphabet string
      each lookahead reduces to plain membership. */
  lemma LookaheadOnAlphabet(p: string, k: CharClass)
    requires AllInAlphabet(p)
    ensures DotStarThen(p, k) <==> Contains(p, k)
  {
    DotStarThenFinds(p, k);
    if Contains(p, k) {
      var i :| 0 <= i < |p| && InClass(p[i], k);
      assert NoTerminatorBefore(p, i);
    }
  }

  /** The regex accepts exactly the passwords that meet the policy. */
  lemma ValidPasswordIffPolicy(p: string)
    ensures ValidPassword(p) <==> MeetsPolicy(p)
  {
    RepeatToEndIff(p, MinLength);
    if AllInAlphabet(p) {
      LookaheadOnAlphabet(p, Lower);
      LookaheadOnAlphabet(p, Upper);
      LookaheadOnAlphabet(p, Digit);
      LookaheadOnAlphabet(p, Special);
    }
  }

  /** An accepted password has at least eight characters. */
  lemma ValidPasswordMinLength(p: string)
    ensures ValidPassword(p) ==> |p| >= MinLength
  {
    ValidPasswordIffPolicy(p);
  }

  /** One character outside `[A-Za-z0-9@$!%*?&]` is enough to reject. */
  lemma ForeignCharacterRejected(p: string, i: int)
    requires 0 <= i < |p| && !InAlphabet(p[i])
    ensures !ValidPassword(p)
  {
    ValidPasswordIffPolicy(p);
  }

  /** A lowercase letter is required, although the handler's error message
      lists only the length, an uppercase letter, a digit and a special
      character. */
  lemma LowercaseRequired(p: string)
    requires !Contains(p, Lower)
    ensures !ValidPassword(p)
  {
    ValidPasswordIffPolicy(p);
  }

  /** A request without a password is rejected: "undefined" has no uppercase
      letter, no digit and no special character. */
  lemma MissingPasswordRejected()
    ensures !ValidPassword(RegexInput(None))
  {
    var s := RegexInput(None);
    ValidPasswordIffPolicy(s);
    assert !Contains(s, Upper) by {
      forall i | 0 <= i < |s| ensures !InClass(s[i], Upper) {
        assert s[i] in "undefined";
      }
    }
  }
}
