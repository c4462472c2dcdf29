/**
 * `isValidEmail`: the anchored regular expression `^[^\s@]+@[^\s@]+\.[^\s@]+$`.
 * The regular expression is stated as a decomposition of the string into
 * three runs of allowed characters; the validator itself is a left-to-right
 * scan with a seven-state automaton, one state a rejecting sink, proved to
 * accept exactly those strings.
 */
module Emails {
  import opened Chars

  /** One character of the class `[^\s@]`. */
  predicate IsAllowed(c: char) {
    !IsWhiteSpace(c) && c != '@'
  }

  /** `[^\s@]+`: a non-empty run of allowed characters. */
  predicate IsRun(x: string) {
    |x| > 0 && forall i :: 0 <= i < |x| ==> IsAllowed(x[i])
  }

  /** `s` splits as run `@` run `.` run, the three runs being `s[..a]`, `s[a+1..k]` and `s[k+1..]`. */
  predicate SplitsAt(s: string, a: int, k: int) {
    && 0 < a && a + 1 < k && k + 1 < |s|
    && s[a] == '@' && s[k] == '.'
    && IsRun(s[..a]) && IsRun(s[a + 1..k]) && IsRun(s[k + 1..])
  }

  /** The whole string matches `^[^\s@]+@[^\s@]+\.[^\s@]+$`. */
  ghost predicate MatchesEmailRegex(s: string) {
    exists a, k :: SplitsAt(s, a, k)
  }

  /**
   * Scanner states: nothing read; inside the local part; just after `@`;
   * inside the domain with no usable dot yet; just after a usable dot; a
   * complete match so far; failed.
   */
  datatype ScanState = Start | Local | AfterAt | Domain | DomainDot | Accept | Reject

  function Step(q: ScanState, c: char): ScanState {
    if IsWhiteSpace(c) then Reject
    else if c == '@' then (if q == Local then AfterAt else Reject)
    else match q
      case Start => Local
      case Local => Local
      case AfterAt => Domain
      case Domain => if c == '.' then DomainDot else Domain
      case DomainDot => Accept
      case Accept => Accept
      case Reject => Reject
  }

  /** The state after reading all of `s` from the left. */
  function Scan(s: string): ScanState {
    if s == [] then Start else Step(Scan(s[..|s| - 1]), s[|s| - 1])
  }


  /** What each state says about the prefix read so far. */
  ghost predicate Explains(q: ScanState, s: string) {
    match q
    case Start => s == []
    case Local => IsRun(s)
    case AfterAt => |s| >= 2 && s[|s| - 1] == '@' && IsRun(s[..|s| - 1])
    case Domain => exists a :: 0 < a < |s| - 1 && s[a] == '@' && IsRun(s[..a]) && IsRun(s[a + 1..])
    case DomainDot =>
      exists a :: 0 < a && a + 2 < |s| && s[a] == '@' && s[|s| - 1] == '.'
                  && IsRun(s[..a]) && IsRun(s[a + 1..|s| - 1])
    case Accept => MatchesEmailRegex(s)
    case Reject => true
  }

  lemma RunSnoc(x: string, c: char)
    requires IsRun(x) && IsAllowed(c)
    ensures IsRun(x + [c])
  {
  }

  /** Reading an allowed character inside the domain. */
  lemma DomainStep(p: string, c: char)
    requires Explains(Domain, p) && IsAllowed(c)
    ensures Explains(Step(Domain, c), p + [c])
  {
    var s := p + [c];
    var a :| 0 < a < |p| - 1 && p[a] == '@' && IsRun(p[..a]) && IsRun(p[a + 1..]);
    assert s[..a] == p[..a];
    if c == '.' {
      assert s[a + 1..|s| - 1] == p[a + 1..];
    } else {
      RunSnoc(p[a + 1..], c);
      assert s[a + 1..] == p[a + 1..] + [c];
    }
  }

  /** Reading an allowed character just after a usable dot. */
  lemma DomainDotStep(p: string, c: char)
    requires Explains(DomainDot, p) && IsAllowed(c)
    ensures Explains(Step(DomainDot, c), p + [c])
  {
    var s := p + [c];
    var a :| 0 < a && a + 2 < |p| && p[a] == '@' && p[|p| - 1] == '.'
             && IsRun(p[..a]) && IsRun(p[a + 1..|p| - 1]);
    var k := |p| - 1;
    assert s[..a] == p[..a] && s[a + 1..k] == p[a + 1..k] && s[k + 1..] == [c];
    assert SplitsAt(s, a, k);
  }

  /** Reading an allowed character after a complete match. */
  lemma AcceptStep(p: string, c: char)
    requires Explains(Accept, p) && IsAllowed(c)
    ensures Explains(Step(Accept, c), p + [c])
  {
    var s := p + [c];
    var a, k :| SplitsAt(p, a, k);
    assert s[..a] == p[..a] && s[a + 1..k] == p[a + 1..k];
    RunSnoc(p[k + 1..], c);
    assert s[k + 1..] == p[k + 1..] + [c];
    assert SplitsAt(s, a, k);
  }

  lemma ExplainsStep(p: string, c: char)
    requires Explains(Scan(p), p)
    ensures Explains(Step(Scan(p), c), p + [c])
  {
    var s, q := p + [c], Scan(p);
    if IsAllowed(c) {
      match q
      case Start =>
        assert IsRun(s);
      case Local =>
        RunSnoc(p, c);
      case AfterAt =>
        var a := |p| - 1;
        assert s[..a] == p[..a] && s[a + 1..] == [c];
      case Domain =>
        DomainStep(p, c);
      case DomainDot =>
        DomainDotStep(p, c);
      case Accept =>
        AcceptStep(p, c);
      case Reject =>
    } else if c == '@' && q == Local {
      assert s[..|s| - 1] == p;
    }
  }

  lemma {:induction false} ScanExplains(s: string)
    ensures Explains(Scan(s), s)
  {
    if s != [] {
      var p, c := s[..|s| - 1], s[|s| - 1];
      assert s == p + [c];
      ScanExplains(p);
      ExplainsStep(p, c);
    }
  }

  /** The state after reading `s` from `q`, one character at a time. */
  function Run(q: ScanState, s: string): ScanState
    decreases |s|
  {
    if s == [] then q else Run(Step(q, s[0]), s[1..])
  }

  lemma {:induction false} ScanIsRun(p: string, x: string)
    decreases |x|
    ensures Scan(p + x) == Run(Scan(p), x)
  {
    if x != [] {
      assert (p + [x[0]])[..|p|] == p;
      assert p + x == (p + [x[0]]) + x[1..];
      ScanIsRun(p + [x[0]], x[1..]);
    } else {
      assert p + x == p;
    }
  }

  lemma {:induction false} RunAppend(q: ScanState, x: string, y: string)
    decreases |x|
    ensures Run(q, x + y) == Run(Run(q, x), y)
  {
    if x != [] {
      assert (x + y)[1..] == x[1..] + y;
      RunAppend(Step(q, x[0]), x[1..], y);
    } else {
      assert x + y == y;
    }
  }

  /** Allowed characters keep the scanner in the local part. */
  lemma {:induction false} RunLocal(x: string)
    requires forall i :: 0 <= i < |x| ==> IsAllowed(x[i])
    ensures Run(Local, x) == Local
  {
    if x != [] {
      RunLocal(x[1..]);
    }
  }

  predicate InDomain(q: ScanState) {
    q == Domain || q == DomainDot || q == Accept
  }

  /** Allowed characters keep the scanner inside the domain. */
  lemma {:induction false} RunDomain(q: ScanState, x: string)
    requires InDomain(q) && forall i :: 0 <= i < |x| ==> IsAllowed(x[i])
    ensures InDomain(Run(q, x))
    decreases |x|
  {
    if x != [] {
      RunDomain(Step(q, x[0]), x[1..]);
    }
  }

  /** Allowed characters keep an accepted match accepted. */
  lemma {:induction false} RunAccept(x: string)
    requires forall i :: 0 <= i < |x| ==> IsAllowed(x[i])
    ensures Run(Accept, x) == Accept
  {
    if x != [] {
      RunAccept(x[1..]);
    }
  }

  /** From the start, a run then `@` leaves the scanner just after the `@`. */
  lemma ScanLocalAt(local: string)
    requires IsRun(local)
    ensures Run(Start, local + "@") == AfterAt
  {
    RunAppend(Start, local, "@");
    RunLocal(local[1..]);
  }

  /** From just after `@`, a run then `.` reaches a state with a usable dot. */
  lemma ScanHostDot(host: string)
    requires IsRun(host)
    ensures var q := Run(AfterAt, host + "."); q == DomainDot || q == Accept
  {
    RunAppend(AfterAt, host, ".");
    RunDomain(Domain, host[1..]);
  }

  /** A usable dot followed by a run accepts. */
  lemma ScanTop(q: ScanState, top: string)
    requires (q == DomainDot || q == Accept) && IsRun(top)
    ensures Run(q, top) == Accept
  {
    RunAccept(top[1..]);
  }

  lemma SplitAccepted(s: string, a: int, k: int)
    requires SplitsAt(s, a, k)
    ensures Scan(s) == Accept
  {
    var local, host, top := s[..a], s[a + 1..k], s[k + 1..];
    assert s == (local + "@") + ((host + ".") + top);
    ScanIsRun([], s);
    assert [] + s == s;
    RunAppend(Start, local + "@", (host + ".") + top);
    ScanLocalAt(local);
    RunAppend(AfterAt, host + ".", top);
    ScanHostDot(host);
    ScanTop(Run(AfterAt, host + "."), top);
  }

  /** The scanner accepts exactly the strings the regular expression matches. */
  lemma ScanMatchesRegex(s: string)
    ensures Scan(s) == Accept <==> MatchesEmailRegex(s)
  {
    ScanExplains(s);
    if MatchesEmailRegex(s) {
      var a, k :| SplitsAt(s, a, k);
      SplitAccepted(s, a, k);
    }
  }

  /** `/^[^\s@]+@[^\s@]+\.[^\s@]+$/.test(email)`, computed by the scanner. */
  function IsValidEmail(email: string): (r: bool)
    ensures r <==> MatchesEmailRegex(email)
  {
    ScanMatchesRegex(email);
    Scan(email) == Accept
  }

  lemma SplitShape(s: string, a: int, k: int)
    requires SplitsAt(s, a, k)
    ensures forall i :: 0 <= i < |s| ==> !IsWhiteSpace(s[i])
    ensures multiset(s)['@'] == 1
  {
    var local, host, top := s[..a], s[a + 1..k], s[k + 1..];
    assert s == local + ['@'] + host + ['.'] + top;
    assert '@' !in local && '@' !in host && '@' !in top;
    forall i | 0 <= i < |s| ensures !IsWhiteSpace(s[i]) {
      if i < a { assert s[i] == local[i]; }
      else if a < i < k { assert s[i] == host[i - a - 1]; }
      else if k < i { assert s[i] == top[i - k - 1]; }
    }
  }

  /** An accepted address has no whitespace and exactly one `@`, with a dot somewhere after it. */
  lemma ValidEmailShape(s: string)
    requires IsValidEmail(s)
    ensures forall i :: 0 <= i < |s| ==> !IsWhiteSpace(s[i])
    ensures multiset(s)['@'] == 1
    ensures exists a, k :: 0 < a && a + 1 < k && k + 1 < |s| && s[a] == '@' && s[k] == '.'
  {
    var a, k :| SplitsAt(s, a, k);
    SplitShape(s, a, k);
  }

  /** The fixture of the backend tests that passes: `test@example.com`. */
  lemma AcceptsTestAddress(s: string)
    requires s == "test@example.com"
    ensures IsValidEmail(s)
  {
    assert s[..4] == "test" && s[5..12] == "example" && s[13..] == "com";
    assert SplitsAt(s, 4, 12);
    SplitAccepted(s, 4, 12);
  }

  /** A string without `@` never passes. */
  lemma RejectsWithoutAt(s: string)
    requires '@' !in s
    ensures !IsValidEmail(s)
  {
    forall a, k | 0 < a && a + 1 < k && k + 1 < |s| ensures !SplitsAt(s, a, k) {
      assert s[a] in s;
    }
  }

  /** The fixtures of the backend tests: `test@example.com` passes; `invalid-email` and `` fail. */
  lemma EmailExamples()
    ensures IsValidEmail("test@example.com")
    ensures !IsValidEmail("invalid-email")
    ensures !IsValidEmail("")
  {
    AcceptsTestAddress("test@example.com");
    RejectsWithoutAt("invalid-email");
  }
}
