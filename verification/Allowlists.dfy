/** The allowlist of the admin login. */
module Allowlists {
  import opened Text

  datatype Allowlist = Allowlist(emails: set<string>, domains: set<string>, subs: set<string>)

  /** The entries of a configured list that are kept, in the form they are compared in. */
  ghost predicate IsEntry(e: string, configured: seq<string>, form: string -> string) {
    e != "" && exists i :: 0 <= i < |configured| && form(configured[i]) == e
  }

  function NormalForm(): string -> string {
    (s: string) => Normalise(s)
  }

  function TrimmedForm(): string -> string {
    (s: string) => TrimSpace(s)
  }

  method Entries(configured: seq<string>, form: string -> string) returns (kept: set<string>)
    ensures forall e :: e in kept <==> IsEntry(e, configured, form)
  {
    kept := {};
    for i := 0 to |configured|
      invariant forall e :: e in kept <==> IsEntry(e, configured[..i], form)
    {
      var entry := form(configured[i]);
      if entry != "" {
        kept := kept + {entry};
      }
      forall e ensures IsEntry(e, configured[..i + 1], form)
          <==> IsEntry(e, configured[..i], form) || (e != "" && e == entry)
      {
        EntrySnoc(e, configured, form, i);
      }
    }
    assert configured[..|configured|] == configured;
  }

  lemma EntrySnoc(e: string, configured: seq<string>, form: string -> string, i: nat)
    requires i < |configured|
    ensures IsEntry(e, configured[..i + 1], form)
            <==> IsEntry(e, configured[..i], form) || (e != "" && e == form(configured[i]))
  {
    if IsEntry(e, configured[..i], form) {
      var j :| 0 <= j < i && form(configured[..i][j]) == e;
      assert form(configured[..i + 1][j]) == e;
    }
    if e != "" && e == form(configured[i]) {
      assert form(configured[..i + 1][i]) == e;
    }
    if IsEntry(e, configured[..i + 1], form) {
      var j :| 0 <= j < i + 1 && form(configured[..i + 1][j]) == e;
      if j < i { assert form(configured[..i][j]) == e; }
    }
  }

  ghost predicate Configured(a: Allowlist, emails: seq<string>, domains: seq<string>, subs: seq<string>) {
    && (forall e :: e in a.emails <==> IsEntry(e, emails, NormalForm()))
    && (forall e :: e in a.domains <==> IsEntry(e, domains, NormalForm()))
    && (forall e :: e in a.subs <==> IsEntry(e, subs, TrimmedForm()))
  }

  method NewAllowlist(emails: seq<string>, domains: seq<string>, subs: seq<string>) returns (a: Allowlist)
    ensures Configured(a, emails, domains, subs)
  {
    var e := Entries(emails, NormalForm());
    var d := Entries(domains, NormalForm());
    var s := Entries(subs, TrimmedForm());
    a := Allowlist(e, d, s);
  }

  predicate Permits(a: Allowlist, sub: string, email: string, emailVerified: bool) {
    if sub != "" && sub in a.subs then true
    else if !emailVerified || email == "" then false
    else
      var normal := Normalise(email);
      if normal in a.emails then true
      else
        var at := IndexByte(normal, '@');
        if at < 0 || normal[at + 1..] == "" then false else normal[at + 1..] in a.domains
  }

  predicate FirstAt(address: string, i: nat) {
    i < |address| && address[i] == '@' && '@' !in address[..i]
  }

  /** The part after the first @ of the address is a configured domain. */
  ghost predicate DomainListed(address: string, domains: seq<string>) {
    exists i: nat :: FirstAt(address, i) && IsEntry(address[i + 1..], domains, NormalForm())
  }

  lemma DomainPart(address: string, domains: seq<string>)
    ensures var at := IndexByte(address, '@');
            DomainListed(address, domains) <==> at >= 0 && IsEntry(address[at + 1..], domains, NormalForm())
  {
    var at := IndexByte(address, '@');
    if at >= 0 {
      assert FirstAt(address, at);
    }
    forall i: nat | FirstAt(address, i) ensures i == at {
      assert address == address[..i] + ['@'] + address[i + 1..];
      IndexByteOf(address[..i], '@', address[i + 1..]);
    }
  }

  predicate SubPermitted(a: Allowlist, sub: string) {
    sub != "" && sub in a.subs
  }

  predicate AddressPermitted(a: Allowlist, address: string) {
    address in a.emails
  }

  predicate DomainPermitted(a: Allowlist, address: string) {
    var at := IndexByte(address, '@');
    at >= 0 && address[at + 1..] != "" && address[at + 1..] in a.domains
  }

  /** The decision as three separate ways in. */
  lemma PermitsThreeWays(a: Allowlist, sub: string, email: string, verified: bool)
    ensures Permits(a, sub, email, verified)
            <==> || SubPermitted(a, sub)
                 || (verified && email != "" && AddressPermitted(a, Normalise(email)))
                 || (verified && email != "" && DomainPermitted(a, Normalise(email)))
  {
  }

  lemma SubExactly(a: Allowlist, emails: seq<string>, domains: seq<string>, subs: seq<string>, sub: string)
    requires Configured(a, emails, domains, subs)
    ensures SubPermitted(a, sub) <==> IsEntry(sub, subs, TrimmedForm())
  {
  }

  lemma AddressExactly(a: Allowlist, emails: seq<string>, domains: seq<string>, subs: seq<string>, address: string)
    requires Configured(a, emails, domains, subs)
    ensures AddressPermitted(a, address) <==> IsEntry(address, emails, NormalForm())
    ensures AddressPermitted(a, address) ==> address != ""
  {
  }

  lemma DomainExactly(a: Allowlist, emails: seq<string>, domains: seq<string>, subs: seq<string>, address: string)
    requires Configured(a, emails, domains, subs)
    ensures DomainPermitted(a, address) <==> DomainListed(address, domains)
    ensures DomainPermitted(a, address) ==> address != ""
  {
    DomainPart(address, domains);
    var at := IndexByte(address, '@');
    if at >= 0 {
      assert address[at + 1..] in a.domains <==> IsEntry(address[at + 1..], domains, NormalForm());
    }
  }

  lemma NothingConfigured(address: string, form: string -> string)
    ensures !IsEntry(address, [], form) && !DomainListed(address, [])
  {
  }

  /**
   Who gets in: a configured subject, or a verified e-mail address that is configured or
   whose part after the first @ is. With nothing configured, nobody.
   */
  lemma PermitsExactly(a: Allowlist, emails: seq<string>, domains: seq<string>, subs: seq<string>, sub: string,
      email: string, verified: bool)
    requires Configured(a, emails, domains, subs)
    ensures Permits(a, sub, email, verified)
            <==> || IsEntry(sub, subs, TrimmedForm())
                 || (verified && IsEntry(Normalise(email), emails, NormalForm()))
                 || (verified && DomainListed(Normalise(email), domains))
    ensures emails == [] && domains == [] && subs == [] ==> !Permits(a, sub, email, verified)
  {
    var address := Normalise(email);
    assert email == "" ==> address == "";
    PermitsThreeWays(a, sub, email, verified);
    SubExactly(a, emails, domains, subs, sub);
    AddressExactly(a, emails, domains, subs, address);
    DomainExactly(a, emails, domains, subs, address);
    NothingConfigured(sub, TrimmedForm());
    NothingConfigured(address, NormalForm());
  }
}
