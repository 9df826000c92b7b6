/**
 * The address pattern a cart's email must match (Cart.java):
 *
 *   local part   one or more of  a-z A-Z 0-9 . ! # $ % & ’ * + / = ? ^ _ ` { | } ~ -
 *   then         a single '@'
 *   domain       one or more labels of  a-z A-Z 0-9 -  joined by single dots
 *
 * The pattern is matched against the whole string. `Matches` runs it as a small
 * automaton, the way a regular-expression engine does; `IsEmail` states the same
 * language declaratively, and `MatchesIsEmail` proves the two agree on every string.
 */
module EmailPattern {

  predicate IsAlphanumeric(c: char) {
    'a' <= c <= 'z' || 'A' <= c <= 'Z' || '0' <= c <= '9'
  }

  /** The local-part character class; it includes the typographic apostrophe U+2019. */
  predicate IsLocalChar(c: char) {
    || IsAlphanumeric(c)
    || c == '.' || c == '!' || c == '#' || c == '$' || c == '%' || c == '&' || c == '\U{2019}'
    || c == '*' || c == '+' || c == '/' || c == '=' || c == '?' || c == '^' || c == '_'
    || c == '`' || c == '{' || c == '|' || c == '}' || c == '~' || c == '-'
  }

  /** The domain-label character class. */
  predicate IsLabelChar(c: char) {
    IsAlphanumeric(c) || c == '-'
  }

  // ---------------------------------------------------------------------------
  // The language, stated declaratively
  // ---------------------------------------------------------------------------

  ghost predicate IsLocalPart(s: string) {
    |s| > 0 && forall i :: 0 <= i < |s| ==> IsLocalChar(s[i])
  }

  /** Only label characters and dots, with no dot first, last, or next to another dot. */
  ghost predicate IsDomain(d: string) {
    && |d| > 0
    && (forall i :: 0 <= i < |d| ==> IsLabelChar(d[i]) || d[i] == '.')
    && d[0] != '.'
    && d[|d| - 1] != '.'
    && (forall i :: 0 <= i < |d| - 1 ==> d[i] == '.' ==> d[i + 1] != '.')
  }

  /** A local part, an '@' at position k, and a domain. */
  ghost predicate SplitsAt(s: string, k: int) {
    0 <= k < |s| && s[k] == '@' && IsLocalPart(s[..k]) && IsDomain(s[k + 1..])
  }

  ghost predicate IsEmail(s: string) {
    exists k :: SplitsAt(s, k)
  }

  // ---------------------------------------------------------------------------
  // The matcher
  // ---------------------------------------------------------------------------

  datatype State =
    | LocalStart   // nothing read yet: a local-part character is needed
    | Local        // inside the local part
    | DomainStart  // just read the '@': a label character is needed
    | Label        // inside a domain label (the only accepting state)
    | AfterDot     // just read a '.': a label character is needed
    | Reject

  function Step(q: State, c: char): State {
    match q
    case LocalStart => if IsLocalChar(c) then Local else Reject
    case Local => if c == '@' then DomainStart else if IsLocalChar(c) then Local else Reject
    case DomainStart => if IsLabelChar(c) then Label else Reject
    case Label => if IsLabelChar(c) then Label else if c == '.' then AfterDot else Reject
    case AfterDot => if IsLabelChar(c) then Label else Reject
    case Reject => Reject
  }

  function Run(q: State, s: string): State
    decreases |s|
  {
    if s == [] then q else Run(Step(q, s[0]), s[1..])
  }

  /** Whether the whole of `s` matches the email pattern. */
  predicate Matches(s: string) {
    Run(LocalStart, s) == Label
  }

  // ---------------------------------------------------------------------------
  // Matcher and declarative language agree
  // ---------------------------------------------------------------------------

  /** What may follow a label character inside a domain: possibly empty, no doubled or trailing dot. */
  ghost predicate IsDomainTail(d: string) {
    && (forall i :: 0 <= i < |d| ==> IsLabelChar(d[i]) || d[i] == '.')
    && (|d| > 0 ==> d[|d| - 1] != '.')
    && (forall i :: 0 <= i < |d| - 1 ==> d[i] == '.' ==> d[i + 1] != '.')
  }

  lemma {:induction false} RejectIsFinal(s: string)
    ensures Run(Reject, s) == Reject
    decreases |s|
  {
    if s != [] {
      RejectIsFinal(s[1..]);
    }
  }

  /** From inside a label, the rest is accepted exactly when it is a domain tail. */
  lemma {:induction false} RunFromLabel(d: string)
    ensures Run(Label, d) == Label <==> IsDomainTail(d)
    decreases |d|
  {
    if d == [] {
      return;
    }
    var c, r := d[0], d[1..];
    if IsLabelChar(c) {
      RunFromLabel(r);
      assert IsDomainTail(d) <==> IsDomainTail(r) by {
        if IsDomainTail(r) {
          forall i | 0 <= i < |d| - 1 && d[i] == '.' ensures d[i + 1] != '.' {
            assert r[i - 1] == '.';
          }
        }
        if IsDomainTail(d) {
          forall i | 0 <= i < |r| - 1 && r[i] == '.' ensures r[i + 1] != '.' {
            assert d[i + 1] == '.';
          }
        }
      }
    } else if c == '.' {
      if r == [] {
        assert !IsDomainTail(d) by { assert d[|d| - 1] == '.'; }
      } else if IsLabelChar(r[0]) {
        RunFromLabel(r[1..]);
        assert Run(Label, d) == Run(Label, r[1..]);
        assert IsDomainTail(d) <==> IsDomainTail(r[1..]) by {
          if IsDomainTail(r[1..]) {
            forall i | 0 <= i < |d| - 1 && d[i] == '.' ensures d[i + 1] != '.' {
              if i >= 2 {
                assert r[1..][i - 2] == '.';
              }
            }
          }
          if IsDomainTail(d) {
            forall i | 0 <= i < |r[1..]| - 1 && r[1..][i] == '.' ensures r[1..][i + 1] != '.' {
              assert d[i + 2] == '.';
            }
          }
        }
      } else {
        RejectIsFinal(r[1..]);
        assert !IsDomainTail(d) by {
          assert d[1] == r[0];
          if !(IsLabelChar(d[1]) || d[1] == '.') {
          } else {
            assert d[0] == '.' && d[1] == '.';
          }
        }
      }
    } else {
      RejectIsFinal(r);
      assert !(IsLabelChar(d[0]) || d[0] == '.');
    }
  }

  /** Right after the '@' (or a dot), the rest is accepted exactly when it is a domain. */
  lemma DomainStartRun(d: string)
    ensures Run(DomainStart, d) == Label <==> IsDomain(d)
  {
    if d == [] {
      return;
    }
    if IsLabelChar(d[0]) {
      RunFromLabel(d[1..]);
      assert IsDomain(d) <==> IsDomainTail(d[1..]) by {
        if IsDomainTail(d[1..]) {
          forall i | 0 <= i < |d| - 1 && d[i] == '.' ensures d[i + 1] != '.' {
            assert d[1..][i - 1] == '.';
          }
        }
        if IsDomain(d) {
          forall i | 0 <= i < |d[1..]| - 1 && d[1..][i] == '.' ensures d[1..][i + 1] != '.' {
            assert d[i + 1] == '.';
          }
        }
      }
    } else {
      RejectIsFinal(d[1..]);
    }
  }

  /** An '@' at position k, local-part characters before it and a domain after it. */
  ghost predicate AtBeforeDomain(s: string, k: int) {
    0 <= k < |s| && s[k] == '@' && (forall i :: 0 <= i < k ==> IsLocalChar(s[i])) && IsDomain(s[k + 1..])
  }

  /** Inside the local part, the rest is accepted exactly when an '@' follows more local characters and a domain. */
  lemma {:induction false} RunFromLocal(s: string)
    ensures Run(Local, s) == Label <==>
      exists k :: AtBeforeDomain(s, k)
    decreases |s|
  {
    if s == [] {
      return;
    }
    var c, r := s[0], s[1..];
    if c == '@' {
      DomainStartRun(r);
      if IsDomain(r) {
        assert s[0 + 1..] == r;
        assert AtBeforeDomain(s, 0);
      }
      if exists k :: AtBeforeDomain(s, k) {
        var k :| AtBeforeDomain(s, k);
        assert k == 0;
      }
    } else if IsLocalChar(c) {
      RunFromLocal(r);
      if exists k :: AtBeforeDomain(r, k) {
        var k :| AtBeforeDomain(r, k);
        assert s[k + 1 + 1..] == r[k + 1..];
        assert forall i :: 0 <= i < k + 1 ==> IsLocalChar(s[i]) by {
          forall i | 0 <= i < k + 1 ensures IsLocalChar(s[i]) {
            if i > 0 {
              assert s[i] == r[i - 1];
            }
          }
        }
        assert AtBeforeDomain(s, k + 1);
      }
      if exists k :: AtBeforeDomain(s, k) {
        var k :| AtBeforeDomain(s, k);
        assert k != 0;
        assert r[k - 1 + 1..] == s[k + 1..];
        assert r[k - 1] == '@';
        assert forall i :: 0 <= i < k - 1 ==> IsLocalChar(r[i]) by {
          forall i | 0 <= i < k - 1 ensures IsLocalChar(r[i]) {
            assert r[i] == s[i + 1];
          }
        }
        assert AtBeforeDomain(r, k - 1);
      }
    } else {
      RejectIsFinal(r);
      forall k | 0 <= k < |s| ensures !AtBeforeDomain(s, k) {
        if k > 0 {
          assert !IsLocalChar(s[0]);
        }
      }
    }
  }

  /** The matcher accepts exactly the strings of the declared language. */
  lemma MatchesIsEmail(s: string)
    ensures Matches(s) <==> IsEmail(s)
  {
    if s == [] {
      return;
    }
    var c, r := s[0], s[1..];
    if IsLocalChar(c) {
      RunFromLocal(r);
      if Matches(s) {
        var k :| AtBeforeDomain(r, k);
        assert s[k + 1 + 1..] == r[k + 1..];
        assert SplitsAt(s, k + 1) by {
          forall i | 0 <= i < k + 1 ensures IsLocalChar(s[i]) {
            if i > 0 {
              assert s[i] == r[i - 1];
            }
          }
        }
      }
      if IsEmail(s) {
        var k :| SplitsAt(s, k);
        assert k != 0;
        assert r[k - 1 + 1..] == s[k + 1..];
        assert r[k - 1] == '@';
        forall i | 0 <= i < k - 1 ensures IsLocalChar(r[i]) {
          assert r[i] == s[..k][i + 1];
        }
        assert AtBeforeDomain(r, k - 1);
      }
    } else {
      RejectIsFinal(r);
    }
  }

  // ---------------------------------------------------------------------------
  // Consequences
  // ---------------------------------------------------------------------------

  /**
   * An accepted address has exactly one '@', with a non-empty local part before it
   * and a non-empty domain after it.
   */
  lemma AcceptedHasOneAt(s: string)
    requires Matches(s)
    ensures exists k :: SplitsAt(s, k) && (forall j :: 0 <= j < |s| && s[j] == '@' ==> j == k)
  {
    MatchesIsEmail(s);
    var k :| SplitsAt(s, k);
    forall j | 0 <= j < |s| && s[j] == '@' ensures j == k {
    }
  }

  /** The two addresses the cart resource tests store are accepted. */
  lemma TestAddressesAccepted()
    ensures Matches("*P@p") && Matches("W@G")
  {
  }

  /** The typographic apostrophe is a local-part character, and a domain may have several labels. */
  lemma ApostropheAndLabelsAccepted()
    ensures Matches("o\U{2019}k@a.b-c")
  {
  }

  /** A missing local part or domain is rejected. */
  lemma MissingPartRejected()
    ensures !Matches("") && !Matches("@p") && !Matches("a@")
  {
  }

  /** A second '@' is rejected. */
  lemma SecondAtRejected()
    ensures !Matches("a@@b") && !Matches("a@b@c")
  {
  }

  /** A leading, trailing or doubled dot in the domain is rejected. */
  lemma StrayDotRejected()
    ensures !Matches("a@b.")
    ensures !Matches("a@.b")
    ensures !Matches("a@b..c")
  {
  }

  /** Characters outside the classes, such as a space, are rejected. */
  lemma ForeignCharacterRejected()
    ensures !Matches("a b@c") && !Matches("a@b_c")
  {
  }
}
