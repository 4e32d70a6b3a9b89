/** The allowlist of mail domains: who may fall back to the mail server, and what normalizing
    the settings does to those decisions. */
module MailDomains {
  import opened Common
  import opened Text

  /** What follows the last at sign. */
  function DomainOf(email: string): Option<string> {
    if email == "" then None
    else if email[|email| - 1] == '@' then Some("")
    else match DomainOf(email[..|email| - 1])
      case None => None
      case Some(d) => Some(d + [email[|email| - 1]])
  }

  lemma {:induction false} DomainIsLastPart(email: string)
    ensures DomainOf(email) == None <==> '@' !in email
    ensures DomainOf(email).Some? ==>
      var d := DomainOf(email).value;
      '@' !in d && exists local :: email == local + "@" + d
  {
    if email == "" {
    } else {
      var front, c := email[..|email| - 1], email[|email| - 1];
      assert email == front + [c];
      DomainIsLastPart(front);
      if c == '@' {
        assert email == front + "@" + "";
      } else if DomainOf(front).Some? {
        var d := DomainOf(front).value;
        var local :| front == local + "@" + d;
        assert email == local + "@" + (d + [c]);
      }
    }
  }

  /** Equality up to case, after trimming the listed entry. */
  predicate Allowed(domains: seq<string>, email: string) {
    DomainOf(email).Some? &&
    exists i :: 0 <= i < |domains| && Lower(Trim(domains[i])) == Lower(DomainOf(email).value)
  }

  method LastAt(email: string) returns (at: int)
    ensures -1 <= at < |email|
    ensures at == -1 <==> DomainOf(email) == None
    ensures at >= 0 ==> DomainOf(email) == Some(email[at + 1..])
  {
    at := |email| - 1;
    assert email[..at + 1] == email && email[at + 1..] == "";
    assert DomainOf(email).Some? ==> DomainOf(email).value + "" == DomainOf(email).value;
    while at >= 0 && email[at] != '@'
      invariant -1 <= at < |email|
      invariant DomainOf(email) ==
        match DomainOf(email[..at + 1]) case None => None case Some(d) => Some(d + email[at + 1..])
    {
      assert email[..at + 1][..at] == email[..at];
      assert forall d: string :: d + [email[at]] + email[at + 1..] == d + email[at..];
      at := at - 1;
    }
    if at >= 0 {
      assert [] + email[at + 1..] == email[at + 1..];
    }
  }

  method ImapDomainAllowed(domains: seq<string>, email: string) returns (allowed: bool)
    ensures allowed <==> Allowed(domains, email)
  {
    var at := LastAt(email);
    if at < 0 {
      return false;
    }
    var dom := Lower(email[at + 1..]);
    LowerTwice(email[at + 1..]);
    for i := 0 to |domains|
      invariant forall j :: 0 <= j < i ==> Lower(Trim(domains[j])) != dom
    {
      if Lower(Trim(domains[i])) == Lower(dom) {
        return true;
      }
    }
    allowed := false;
  }

  lemma {:induction false} DomainOfAddress(local: string, dom: string)
    requires '@' !in dom
    ensures DomainOf(local + "@" + dom) == Some(dom)
  {
    var email := local + "@" + dom;
    if dom == "" {
      assert email == local + "@";
    } else {
      var front := dom[..|dom| - 1];
      DomainOfAddress(local, front);
      assert email[..|email| - 1] == local + "@" + front;
      assert dom == front + [dom[|dom| - 1]];
    }
  }

  /** An address is allowed exactly when its domain is a listed entry without the spaces around it,
      up to case; and without an at sign it never is. */
  lemma AddressAllowedExactly(domains: seq<string>, local: string, dom: string)
    requires '@' !in dom
    ensures Allowed(domains, local + "@" + dom) <==> exists i :: 0 <= i < |domains| && SameButCase(Trim(domains[i]), dom)
    ensures !Allowed(domains, dom)
  {
    DomainOfAddress(local, dom);
    DomainIsLastPart(dom);
    forall i | 0 <= i < |domains|
      ensures Lower(Trim(domains[i])) == Lower(dom) <==> SameButCase(Trim(domains[i]), dom)
    {
      LowerExactly(Trim(domains[i]), dom);
    }
  }

  // ---- normalizing the settings ----

  function Canonical(d: string): string {
    Lower(Trim(d))
  }

  function Normalized(domains: seq<string>): seq<string> {
    if domains == [] then [] else
    var d := Canonical(domains[|domains| - 1]);
    Normalized(domains[..|domains| - 1]) + if d != "" then [d] else []
  }

  /** Rewrites the list in place: canonical entries move to the front, blank ones are dropped. */
  method NormalizeInPlace(a: array<string>) returns (kept: nat)
    modifies a
    ensures kept <= a.Length && a[..kept] == Normalized(old(a[..]))
  {
    kept := 0;
    ghost var before := a[..];
    for i := 0 to a.Length
      invariant kept <= i
      invariant a[..kept] == Normalized(before[..i])
      invariant a[i..] == before[i..]
    {
      assert a[i] == a[i..][0] == before[i];
      assert before[..i + 1][..i] == before[..i];
      assert a[i + 1..] == a[i..][1..];
      var d := Lower(Trim(a[i]));
      if d != "" {
        a[kept] := d;
        assert a[..kept + 1] == a[..kept] + [d];
        kept := kept + 1;
      }
    }
    assert before[..a.Length] == before;
  }

  /** Normalizing works entry by entry: order and repetitions are kept. */
  lemma {:induction false} NormalizedConcat(a: seq<string>, b: seq<string>)
    ensures Normalized(a + b) == Normalized(a) + Normalized(b)
    ensures |a| == 1 ==> Normalized(a) == if Lower(Trim(a[0])) == "" then [] else [Lower(Trim(a[0]))]
  {
    if b == [] {
      assert a + b == a;
    } else {
      var front, d := b[..|b| - 1], b[|b| - 1];
      NormalizedConcat(a, front);
      assert (a + b)[..|a + b| - 1] == a + front;
    }
    if |a| == 1 {
      assert a[..0] == [];
    }
  }

  /** The normalized list holds exactly the canonical forms that are not blank. */
  lemma {:induction false} NormalizedHolds(domains: seq<string>, d: string)
    ensures d in Normalized(domains) <==> d != "" && exists i :: 0 <= i < |domains| && Canonical(domains[i]) == d
  {
    if domains == [] {
    } else {
      var front := domains[..|domains| - 1];
      NormalizedHolds(front, d);
      if d != "" && exists i :: 0 <= i < |front| && Canonical(front[i]) == d {
        var i :| 0 <= i < |front| && Canonical(front[i]) == d;
        assert domains[i] == front[i];
      }
      assert forall i :: 0 <= i < |front| ==> domains[i] == front[i];
    }
  }

  /** Normalizing the list changes one decision and no other: an address that ends in its at
      sign, which a blank entry lets in, is allowed no more. */
  lemma NormalizingKeepsDecisions(domains: seq<string>, email: string)
    ensures Allowed(Normalized(domains), email) <==> Allowed(domains, email) && DomainOf(email) != Some("")
  {
    if DomainOf(email).Some? {
      var ds, dom := Normalized(domains), Lower(DomainOf(email).value);
      NormalizedHolds(domains, dom);
      forall i | 0 <= i < |ds|
        ensures Canonical(ds[i]) == ds[i]
      {
        NormalizedHolds(domains, ds[i]);
        assert ds[i] in ds;
        var k :| 0 <= k < |domains| && Canonical(domains[k]) == ds[i];
        TrimTrims(domains[k]);
        LowerKeepsTrimmed(Trim(domains[k]));
      }
      if dom in ds {
        var i :| 0 <= i < |ds| && ds[i] == dom;
        assert Canonical(ds[i]) == dom;
      }
    }
  }

  lemma BlankEntryAllowsEmptyDomain()
    ensures Allowed([" "], "bob@") && !Allowed(Normalized([" "]), "bob@")
  {
    assert Trim(" ") == "";
    assert "bob@"[3] == '@';
    assert Lower(Trim([" "][0])) == Lower("");
    NormalizingKeepsDecisions([" "], "bob@");
  }
}
