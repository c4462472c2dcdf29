/**
 * `generateMockUser`: a placeholder user chosen from fixed lists by the
 * JavaScript remainder of the id. The id is any safe integer (at most
 * 2^53 - 1 in magnitude), where a JavaScript number is exact and `${id}` is
 * its plain decimal numeral; the creation time is the injected current instant.
 */
module MockUsers {
  import opened Wrappers
  import opened Chars
  import opened Timestamps
  import opened Emails
  import JsNumbers

  const Names: seq<string> := ["Alice", "Bob", "Charlie", "Diana", "Eve"]
  const Domains: seq<string> := ["example.com", "test.org", "demo.net"]

  /** A safe integer: a JavaScript number holds it exactly, and so do its neighbours. */
  predicate IsSafeId(id: int) {
    -JsNumbers.MaxSafeInteger <= id <= JsNumbers.MaxSafeInteger
  }

  datatype UserData = UserData(id: int, name: string, email: string, createdAt: string)

  /** The TypeError thrown by `name.toLowerCase()` when the name read is `undefined`. */
  datatype MockUserError = NameIsUndefined

  /** JavaScript `a % n` on integers: the remainder takes the sign of the dividend. */
  function Remainder(a: int, n: int): (r: int)
    requires n > 0
    ensures -n < r < n
    ensures a >= 0 ==> r == a % n
    ensures a < 0 ==> r <= 0
  {
    if a >= 0 then a % n else -((-a) % n)
  }

  lemma MultipleMod(k: int, n: int)
    requires n > 0
    ensures (n * k) % n == 0
  {
    var m := n * k;
    assert m == n * (m / n) + m % n;
    var d := m / n - k;
    assert n * d + m % n == 0;
  }

  /** The JavaScript remainder differs from the dividend by a multiple of the divisor. */
  lemma RemainderIsCongruent(a: int, n: int)
    requires n > 0
    ensures (a - Remainder(a, n)) % n == 0
  {
    if a >= 0 {
      assert a == n * (a / n) + a % n;
      MultipleMod(a / n, n);
    } else {
      var q := (-a) / n;
      assert -a == n * q + (-a) % n;
      assert a - Remainder(a, n) == n * (-q);
      MultipleMod(-q, n);
    }
  }


  /** Reading `xs[i]`: `undefined` (None) outside the array. */
  function Element(xs: seq<string>, i: int): (r: Option<string>)
    ensures r.Some? <==> 0 <= i < |xs|
    ensures r.Some? ==> r.value == xs[i]
  {
    if 0 <= i < |xs| then Some(xs[i]) else None
  }

  /** A value in a template literal: `undefined` is written out as the word. */
  function Interpolate(v: Option<string>): string {
    match v
    case Some(s) => s
    case None => "undefined"
  }

  /**
   * Number::toString of a safe integer: a minus sign exactly for negative
   * numbers, then the digits of the magnitude without leading zeros.
   */
  function NumberToString(n: int): (r: string)
    requires IsSafeId(n)
    ensures |r| >= 1 && (r[0] == '-' <==> n < 0)
    ensures var digits := if n < 0 then r[1..] else r;
      && |digits| >= 1 && AllDigits(digits) && (digits[0] == '0' ==> |digits| == 1)
      && DigitsValue(digits) == (if n < 0 then -n else n)
  {
    if n < 0 then DecimalValue(-n); "-" + Decimal(-n) else DecimalValue(n); Decimal(n)
  }

  /** `users[id % users.length]`. */
  function NameOf(id: int): Option<string> {
    Element(Names, Remainder(id, |Names|))
  }

  /** `${domains[id % domains.length]}`. */
  function DomainOf(id: int): string {
    Interpolate(Element(Domains, Remainder(id, |Domains|)))
  }

  /** `${name.toLowerCase()}${id}@${domain}`. */
  function EmailOf(name: string, id: int, domain: string): string
    requires IsSafeId(id)
  {
    Lower(name) + NumberToString(id) + "@" + domain
  }

  /**
   * `generateMockUser(id)` with the clock read as `now`. Only a negative id
   * can throw; a user keeps its id, is named from the list and is created now.
   */
  function GenerateMockUser(id: int, now: DateTime): (r: Result<UserData, MockUserError>)
    requires IsSafeId(id) && Valid(now)
    ensures r.Failure? ==> id < 0 && r.error == NameIsUndefined
    ensures r.Success? ==> r.value.id == id && r.value.name in Names && r.value.createdAt == FormatTimestamp(now)
  {
    match NameOf(id)
    case None => Failure(NameIsUndefined)
    case Some(name) => Success(UserData(id, name, EmailOf(name, id, DomainOf(id)), FormatTimestamp(now)))
  }

  /** For a non-negative id the JavaScript remainders are the ordinary ones and both reads hit the lists. */
  lemma SelectionOfNonNegativeId(id: int)
    requires id >= 0
    ensures NameOf(id) == Some(Names[id % 5]) && DomainOf(id) == Domains[id % 3]
  {
  }

  /**
   * A non-negative id keeps its value, takes name `Names[id % 5]` and domain
   * `Domains[id % 3]`, and gets the email `lowercase(name) + id + "@" + domain`.
   */
  lemma MockUserOfNonNegativeId(id: int, now: DateTime)
    requires 0 <= id && IsSafeId(id) && Valid(now)
    ensures var r := GenerateMockUser(id, now);
      && r.Success?
      && r.value.id == id
      && r.value.name == Names[id % 5]
      && r.value.email == Lower(Names[id % 5]) + Decimal(id) + "@" + Domains[id % 3]
      && r.value.createdAt == FormatTimestamp(now)
  {
    SelectionOfNonNegativeId(id);
  }

  /** Ids fifteen apart share name and domain, whatever the clock says. */
  lemma MockUserPeriod(id: int, now: DateTime, later: DateTime)
    requires 0 <= id && IsSafeId(id + 15) && Valid(now) && Valid(later)
    ensures var u, v := GenerateMockUser(id, now).value, GenerateMockUser(id + 15, later).value;
      && u.name == v.name
      && v.email == Lower(u.name) + Decimal(id + 15) + "@" + Domains[id % 3]
  {
    MockUserOfNonNegativeId(id, now);
    MockUserOfNonNegativeId(id + 15, later);
    assert (id + 15) % 5 == id % 5 && (id + 15) % 3 == id % 3;
  }

  /**
   * An id `-m` throws unless `m` is a multiple of 5; otherwise it reads
   * `users[-0]`, that is "Alice", and its domain is the word `undefined`
   * unless `m` is also a multiple of 3.
   */
  lemma MockUserOfNegativeId(id: int, now: DateTime)
    requires IsSafeId(id) && id < 0 && Valid(now)
    ensures var r := GenerateMockUser(id, now);
      && (r.Failure? <==> (-id) % 5 != 0)
      && (r.Success? ==>
            && r.value.name == "Alice"
            && r.value.email == "alice-" + Decimal(-id) + "@" + (if (-id) % 3 == 0 then "example.com" else "undefined"))
  {
    if (-id) % 5 == 0 {
      assert NameOf(id) == Some("Alice");
      LowerAlice();
      assert "alice" + ("-" + Decimal(-id)) == "alice-" + Decimal(-id);
    }
  }

  /** The throwing case on its own: `-m` with `m` not a multiple of 5. */
  lemma NegativeIdThrows(id: int, now: DateTime)
    requires IsSafeId(id) && id < 0 && (-id) % 5 != 0 && Valid(now)
    ensures GenerateMockUser(id, now) == Failure(NameIsUndefined)
  {
    MockUserOfNegativeId(id, now);
  }

  lemma LowerAlice()
    ensures Lower("Alice") == "alice"
  {
  }

  lemma LowerBob()
    ensures Lower("Bob") == "bob"
  {
  }

  lemma ExampleEmail(name: string, digits: string, domain: string)
    requires name == "bob" && digits == "1" && domain == "test.org"
    ensures name + digits + "@" + domain == "bob1@test.org"
  {
  }

  lemma SelectionOfOne(id: int)
    requires id == 1
    ensures NameOf(id) == Some("Bob") && DomainOf(id) == "test.org"
  {
    assert Remainder(id, 5) == 1 && Remainder(id, 3) == 1;
  }

  lemma EmailOfOne(id: int)
    requires id == 1
    ensures EmailOf("Bob", id, "test.org") == "bob1@test.org"
  {
    LowerBob();
    assert NumberToString(id) == "1";
    ExampleEmail("bob", "1", "test.org");
  }

  /** The fixture of the backend tests: id 1 is Bob at test.org. */
  lemma MockUserExample(id: int, now: DateTime)
    requires Valid(now) && id == 1
    ensures GenerateMockUser(id, now) == Success(UserData(1, "Bob", "bob1@test.org", FormatTimestamp(now)))
  {
    SelectionOfOne(id);
    EmailOfOne(id);
  }

  lemma EmailOfParts(local: string, host: string, top: string)
    requires IsRun(local) && IsRun(host) && IsRun(top)
    ensures IsValidEmail(local + "@" + host + "." + top)
  {
    var s := local + "@" + host + "." + top;
    var a, k := |local|, |local| + 1 + |host|;
    assert s[..a] == local && s[a + 1..k] == host && s[k + 1..] == top;
    assert SplitsAt(s, a, k);
  }

  predicate IsLetters(s: string) {
    forall i :: 0 <= i < |s| ==> 'A' <= s[i] <= 'Z' || 'a' <= s[i] <= 'z'
  }

  lemma NamesAreLetters(name: string)
    requires name in Names
    ensures |name| > 0 && IsLetters(name)
  {
  }

  lemma LowerNameIsRun(name: string)
    requires name in Names
    ensures IsRun(Lower(name))
  {
    NamesAreLetters(name);
    var l := Lower(name);
    forall i | 0 <= i < |l| ensures IsAllowed(l[i]) {
      assert l[i] == LowerChar(name[i]);
    }
  }

  lemma NumeralIsRun(id: int)
    requires IsSafeId(id)
    ensures IsRun(NumberToString(id))
  {
    var d := NumberToString(id);
    var digits := if id < 0 then d[1..] else d;
    forall i | 0 <= i < |d| ensures IsAllowed(d[i]) {
      if id >= 0 {
        assert IsDigit(digits[i]);
      } else if i > 0 {
        assert d[i] == digits[i - 1];
        assert IsDigit(digits[i - 1]);
      }
    }
  }

  lemma RunConcat(x: string, y: string)
    requires IsRun(x) && IsRun(y)
    ensures IsRun(x + y)
  {
    var s := x + y;
    forall i | 0 <= i < |s| ensures IsAllowed(s[i]) {
      if i < |x| { assert s[i] == x[i]; } else { assert s[i] == y[i - |x|]; }
    }
  }

  lemma LocalPartIsRun(name: string, id: int)
    requires IsSafeId(id)
    requires name in Names
    ensures IsRun(Lower(name) + NumberToString(id))
  {
    LowerNameIsRun(name);
    NumeralIsRun(id);
    RunConcat(Lower(name), NumberToString(id));
  }

  /** The domain names before their dot. */
  const Hosts: seq<string> := ["example", "test", "demo"]

  /** The domain names after their dot. */
  const Tops: seq<string> := ["com", "org", "net"]

  lemma DomainSplits(i: int)
    requires 0 <= i < 3
    ensures Domains[i] == Hosts[i] + "." + Tops[i]
    ensures IsRun(Hosts[i]) && IsRun(Tops[i])
  {
  }

  /** The email of every user a non-negative id yields passes `isValidEmail`. */
  lemma MockUserEmailIsValid(id: int, now: DateTime)
    requires 0 <= id && IsSafeId(id) && Valid(now)
    ensures IsValidEmail(GenerateMockUser(id, now).value.email)
  {
    SelectionOfNonNegativeId(id);
    var name := Names[id % 5];
    LocalPartIsRun(name, id);
    ListedDomainIsValid(Lower(name) + NumberToString(id), id % 3);
  }

  /** A run of allowed characters before `@` and one of the listed domains makes a valid email. */
  lemma ListedDomainIsValid(local: string, i: int)
    requires IsRun(local) && 0 <= i < 3
    ensures IsValidEmail(local + "@" + Domains[i])
  {
    DomainSplits(i);
    EmailOfParts(local, Hosts[i], Tops[i]);
    assert local + "@" + Hosts[i] + "." + Tops[i] == local + "@" + (Hosts[i] + "." + Tops[i]);
  }

  /** No email whose domain is `undefined` passes `isValidEmail`: the part after the `@` has no dot. */
  lemma UndefinedDomainIsInvalid(local: string)
    requires IsRun(local)
    ensures !IsValidEmail(local + "@" + "undefined")
  {
    var s := local + "@" + "undefined";
    var n := |local|;
    forall a, k | 0 < a && a + 1 < k && k + 1 < |s| ensures !SplitsAt(s, a, k) {
      if a < n {
        assert s[a] == local[a];
        assert s[a] != '@';
      } else if a > n {
        assert s[a] == "undefined"[a - n - 1];
        assert s[a] != '@';
      } else {
        assert s[k] == "undefined"[k - n - 1];
        assert s[k] != '.';
      }
    }
  }

  /** The local part `alice-<digits>` of a negative id that does not throw is a run of allowed characters. */
  lemma AliceLocalPart(id: int)
    requires IsSafeId(id) && id < 0
    ensures IsRun("alice-" + Decimal(-id))
  {
    LocalPartIsRun("Alice", id);
    LowerAlice();
    var d := Decimal(-id);
    assert NumberToString(id) == "-" + d;
    assert "alice" + ("-" + d) == "alice-" + d;
  }

  /** For a negative id that does not throw, the email is valid exactly when the id is a multiple of 3. */
  lemma NegativeIdEmailValidity(id: int, now: DateTime)
    requires IsSafeId(id) && id < 0 && (-id) % 5 == 0 && Valid(now)
    ensures IsValidEmail(GenerateMockUser(id, now).value.email) <==> (-id) % 3 == 0
  {
    MockUserOfNegativeId(id, now);
    var local := "alice-" + Decimal(-id);
    AliceLocalPart(id);
    if (-id) % 3 == 0 {
      ListedDomainIsValid(local, 0);
    } else {
      UndefinedDomainIsInvalid(local);
    }
  }
}
