/** The restricted-users check: a configured list of `name;ip-or-host`
    entries ties a name to the addresses it may join from. Names that do not
    appear in the list are not restricted at all. */
module Restriction {
  import opened Base
  import opened Text

  /** An entry has at least a name field and an address field. */
  predicate WellFormed(entry: string)
  {
    |Split(entry)| >= 2
  }

  predicate AllWellFormed(entries: seq<string>)
  {
    forall i :: 0 <= i < |entries| ==> WellFormed(entries[i])
  }

  function EntryName(entry: string): string
    requires WellFormed(entry)
  {
    Split(entry)[0]
  }

  function EntryAddress(entry: string): string
    requires WellFormed(entry)
  {
    Split(entry)[1]
  }

  /** The entry restricts `name`: its name part equals it ignoring case. */
  predicate NameMatches(entry: string, name: string)
    requires WellFormed(entry)
  {
    EqualsIgnoreCase(EntryName(entry), name)
  }

  /** The entry's address is the connecting IP (exactly) or the connecting
      host name (ignoring case); an unknown IP or host name matches nothing. */
  predicate AddressMatches(entry: string, ip: Option<string>, host: Option<string>)
    requires WellFormed(entry)
  {
    || (ip.Some? && EntryAddress(entry) == ip.value)
    || (host.Some? && EqualsIgnoreCase(EntryAddress(entry), host.value))
  }

  /** Some entry restricts the name. */
  predicate NameListed(entries: seq<string>, name: string)
    requires AllWellFormed(entries)
  {
    exists i :: 0 <= i < |entries| && NameMatches(entries[i], name)
  }

  /** Some entry for the name allows this connection. */
  predicate ConnectionAllowed(entries: seq<string>, name: string, ip: Option<string>, host: Option<string>)
    requires AllWellFormed(entries)
  {
    exists i :: 0 <= i < |entries| && NameMatches(entries[i], name) && AddressMatches(entries[i], ip, host)
  }

  /** The loop over the entries, resumed with `nameFound` already set by the
      entries before these: the first entry for the name whose address
      matches ends the loop with `false`, and running off the end answers
      `nameFound`. */
  function ScanEntries(entries: seq<string>, name: string, ip: Option<string>, host: Option<string>,
                       nameFound: bool): (restricted: bool)
    requires AllWellFormed(entries)
    ensures restricted <==>
              (nameFound || NameListed(entries, name)) && !ConnectionAllowed(entries, name, ip, host)
  {
    if |entries| == 0 then nameFound
    else
      var rest := entries[1..];
      NameListedAtHead(entries, name);
      ConnectionAllowedAtHead(entries, name, ip, host);
      if NameMatches(entries[0], name) then
        if AddressMatches(entries[0], ip, host) then false
        else ScanEntries(rest, name, ip, host, true)
      else ScanEntries(rest, name, ip, host, nameFound)
  }

  /** The name predicate, taken apart at the first entry. */
  lemma NameListedAtHead(entries: seq<string>, name: string)
    requires AllWellFormed(entries) && |entries| > 0
    ensures AllWellFormed(entries[1..])
    ensures NameListed(entries, name) <==> NameMatches(entries[0], name) || NameListed(entries[1..], name)
  {
    var rest := entries[1..];
    assert forall j :: 0 <= j < |rest| ==> rest[j] == entries[j + 1];
    if NameListed(entries, name) {
      var i :| 0 <= i < |entries| && NameMatches(entries[i], name);
      if i > 0 {
        assert NameMatches(rest[i - 1], name);
      }
    }
  }

  /** The connection predicate, taken apart at the first entry. */
  lemma ConnectionAllowedAtHead(entries: seq<string>, name: string, ip: Option<string>, host: Option<string>)
    requires AllWellFormed(entries) && |entries| > 0
    ensures AllWellFormed(entries[1..])
    ensures ConnectionAllowed(entries, name, ip, host) <==>
              (NameMatches(entries[0], name) && AddressMatches(entries[0], ip, host))
              || ConnectionAllowed(entries[1..], name, ip, host)
  {
    var rest := entries[1..];
    assert forall j :: 0 <= j < |rest| ==> rest[j] == entries[j + 1];
    if ConnectionAllowed(entries, name, ip, host) {
      var i :| 0 <= i < |entries| && NameMatches(entries[i], name) && AddressMatches(entries[i], ip, host);
      if i > 0 {
        assert NameMatches(rest[i - 1], name) && AddressMatches(rest[i - 1], ip, host);
      }
    }
  }

  /** `isNameRestricted`: with the feature on, the name is restricted exactly
      when some entry names it and no entry for it allows this IP or host. */
  function IsNameRestricted(enabled: bool, entries: seq<string>, name: string,
                            ip: Option<string>, host: Option<string>): (restricted: bool)
    requires enabled ==> AllWellFormed(entries)
    ensures !enabled ==> !restricted
    ensures enabled ==>
              (restricted <==> NameListed(entries, name) && !ConnectionAllowed(entries, name, ip, host))
  {
    enabled && ScanEntries(entries, name, ip, host, false)
  }

  /** An entry `n;v` written for the player's name lets the player in from IP
      `v` whatever else the list says. */
  lemma EntryAdmitsItsIp(entries: seq<string>, i: nat, n: string, v: string,
                         name: string, host: Option<string>)
    requires AllWellFormed(entries)
    requires i < |entries| && entries[i] == n + ";" + v
    requires ';' !in n && ';' !in v && v != ""
    requires EqualsIgnoreCase(n, name)
    ensures !IsNameRestricted(true, entries, name, Some(v), host)
  {
    SplitPair(n, v);
    assert NameMatches(entries[i], name) && AddressMatches(entries[i], Some(v), host);
  }

  /** An entry `n;h` written for the player's name lets the player in from
      any host name equal to `h` ignoring case. */
  lemma EntryAdmitsItsHost(entries: seq<string>, i: nat, n: string, h: string,
                           name: string, ip: Option<string>, host: string)
    requires AllWellFormed(entries)
    requires i < |entries| && entries[i] == n + ";" + h
    requires ';' !in n && ';' !in h && h != ""
    requires EqualsIgnoreCase(n, name) && EqualsIgnoreCase(h, host)
    ensures !IsNameRestricted(true, entries, name, ip, Some(host))
  {
    SplitPair(n, h);
    assert NameMatches(entries[i], name) && AddressMatches(entries[i], ip, Some(host));
  }

  /** With a single entry `n;v` for the player, a connection whose IP and
      host name both differ from `v` is refused; the IP comparison keeps case. */
  lemma SingleEntryRefusesOtherAddress(n: string, v: string, name: string, ip: string, host: Option<string>)
    requires ';' !in n && ';' !in v && v != ""
    requires EqualsIgnoreCase(n, name)
    requires ip != v
    requires host.None? || !EqualsIgnoreCase(v, host.value)
    ensures AllWellFormed([n + ";" + v])
    ensures IsNameRestricted(true, [n + ";" + v], name, Some(ip), host)
  {
    SplitPair(n, v);
    assert NameMatches([n + ";" + v][0], name);
  }
}
