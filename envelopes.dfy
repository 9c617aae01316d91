/**
 * `emailtunnel.Envelope`: a message with its envelope sender and envelope
 * recipients, and `recipients()`, which matches every envelope recipient
 * with the header in which it is visible.
 */
module Envelopes {
  import opened Common
  import opened Messages

  /** The recipient headers, in the order of `'To Resent-To Cc Resent-Cc Bcc Resent-Bcc'`. */
  datatype HeaderKind = To | ResentTo | Cc | ResentCc | Bcc | ResentBcc {
    /** `headers.index(...)`, the sort key of `recipients()`. */
    function Rank(): nat {
      match this
      case To => 0
      case ResentTo => 1
      case Cc => 2
      case ResentCc => 3
      case Bcc => 4
      case ResentBcc => 5
    }

    function Field(): string {
      match this
      case To => "To"
      case ResentTo => "Resent-To"
      case Cc => "Cc"
      case ResentCc => "Resent-Cc"
      case Bcc => "Bcc"
      case ResentBcc => "Resent-Bcc"
    }
  }

  const Kinds: seq<HeaderKind> := [To, ResentTo, Cc, ResentCc, Bcc, ResentBcc]

  lemma KindsAreRanked()
    ensures |Kinds| == 6
    ensures forall n :: 0 <= n < |Kinds| ==> Kinds[n].Rank() == n
    ensures forall k: HeaderKind :: k.Rank() < |Kinds| && Kinds[k.Rank()] == k
  {
  }

  /** A (realname, address) pair, as `email.utils.getaddresses` yields them. */
  datatype Mailbox = Mailbox(realname: string, address: string)

  /**
   * `email.utils.getaddresses` composed with `decode_any_header` on the
   * address: the mailboxes named in a list of raw header values.
   */
  type AddressParser = seq<string> -> seq<Mailbox>

  /**
   * One triple of `recipients()`: the envelope recipient (`None` for an
   * address that is only visible in a header), the mailbox that
   * `formataddr` formats, and the header it was found in.
   */
  datatype Recipient = Recipient(rcpt: Option<string>, mailbox: Mailbox, kind: HeaderKind)

  /** An entry of the `visible_recipients` dictionary: address -> (realname, header). */
  datatype Sighting = Sighting(address: string, realname: string, kind: HeaderKind)

  // ---------------------------------------------------------------------
  // What the headers show

  /** The mailboxes of header `k` (none when the message has no such header). */
  function Listed(hs: seq<Header>, parse: AddressParser, k: HeaderKind): seq<Mailbox> {
    var raw := AllValues(hs, k.Field());
    if raw == [] then [] else parse(raw)
  }

  function Tagged(mbs: seq<Mailbox>, k: HeaderKind): (r: seq<Sighting>)
    ensures |r| == |mbs|
    ensures forall i :: 0 <= i < |mbs| ==> r[i] == Sighting(mbs[i].address, mbs[i].realname, k)
  {
    seq(|mbs|, i requires 0 <= i < |mbs| => Sighting(mbs[i].address, mbs[i].realname, k))
  }

  /** Every mailbox of the first `n` recipient headers, in scan order. */
  function SightingsUpTo(hs: seq<Header>, parse: AddressParser, n: nat): seq<Sighting>
    requires n <= |Kinds|
  {
    if n == 0 then []
    else SightingsUpTo(hs, parse, n - 1) + Tagged(Listed(hs, parse, Kinds[n - 1]), Kinds[n - 1])
  }

  function Sightings(hs: seq<Header>, parse: AddressParser): seq<Sighting> {
    SightingsUpTo(hs, parse, |Kinds|)
  }

  function MailboxAddresses(mbs: seq<Mailbox>): set<string> {
    set m | m in mbs :: m.address
  }

  // ---------------------------------------------------------------------
  // The dictionary, as a list of entries with distinct addresses

  function Addresses(t: seq<Sighting>): set<string> {
    set s | s in t :: s.address
  }

  ghost predicate UniqueAddresses(t: seq<Sighting>) {
    forall i, j :: 0 <= i < j < |t| ==> t[i].address != t[j].address
  }

  /** The first entry for `a`: `dict.get` on a dictionary, a first match on a scan. */
  function FirstWith(t: seq<Sighting>, a: string): (r: Option<Sighting>)
    ensures r.Some? ==> r.value in t && r.value.address == a
    ensures r.None? <==> a !in Addresses(t)
  {
    if t == [] then None
    else if t[0].address == a then Some(t[0])
    else
      assert Addresses(t) == {t[0].address} + Addresses(t[1..]) by {
        assert t == [t[0]] + t[1..];
      }
      FirstWith(t[1..], a)
  }

  lemma {:induction false} FirstWithAppend(t: seq<Sighting>, s: Sighting, a: string)
    ensures FirstWith(t + [s], a)
         == if FirstWith(t, a).Some? then FirstWith(t, a)
            else if s.address == a then Some(s) else None
    decreases |t|
  {
    if t != [] {
      assert (t + [s])[1..] == t[1..] + [s];
      FirstWithAppend(t[1..], s, a);
    }
  }

  /** `visible_recipients.setdefault(address, (realname, k))`. */
  function SetDefault(t: seq<Sighting>, s: Sighting): seq<Sighting> {
    if FirstWith(t, s.address).Some? then t else t + [s]
  }

  /** The dictionary after `setdefault` on every sighting of `ss`, in order. */
  function SetDefaultAll(ss: seq<Sighting>): seq<Sighting> {
    if ss == [] then [] else SetDefault(SetDefaultAll(ss[..|ss| - 1]), ss[|ss| - 1])
  }

  /**
   * The dictionary has one entry per address seen, and it is the entry
   * of the address's first sighting: `setdefault` never overwrites.
   */
  lemma {:induction false} SetDefaultAllKeepsFirst(ss: seq<Sighting>)
    ensures UniqueAddresses(SetDefaultAll(ss))
    ensures forall a :: FirstWith(SetDefaultAll(ss), a) == FirstWith(ss, a)
    decreases |ss|
  {
    if ss != [] {
      var init, s := ss[..|ss| - 1], ss[|ss| - 1];
      assert ss == init + [s];
      SetDefaultAllKeepsFirst(init);
      var t := SetDefaultAll(init);
      forall a ensures FirstWith(SetDefaultAll(ss), a) == FirstWith(ss, a) {
        FirstWithAppend(init, s, a);
        FirstWithAppend(t, s, a);
      }
      if FirstWith(t, s.address).None? {
        forall i | 0 <= i < |t| ensures t[i].address != s.address {
          assert t[i] in t;
        }
      }
    }
  }

  /** `visible_recipients.pop(a, ...)` removes the entry for `a`. */
  function Without(t: seq<Sighting>, a: string): (r: seq<Sighting>)
    ensures |r| <= |t|
    ensures forall s :: s in r ==> s in t
  {
    if t == [] then [] else (if t[0].address == a then [] else [t[0]]) + Without(t[1..], a)
  }

  lemma {:induction false} FirstWithWithout(t: seq<Sighting>, b: string, a: string)
    ensures FirstWith(Without(t, b), a) == if a == b then None else FirstWith(t, a)
    decreases |t|
  {
    if t != [] {
      FirstWithWithout(t[1..], b, a);
      var rest := Without(t[1..], b);
      if t[0].address == b {
        assert Without(t, b) == rest;
      } else {
        assert Without(t, b) == [t[0]] + rest;
        assert ([t[0]] + rest)[1..] == rest;
      }
    }
  }

  lemma AddressesCons(t: seq<Sighting>)
    requires t != []
    ensures Addresses(t) == {t[0].address} + Addresses(t[1..])
  {
    assert t == [t[0]] + t[1..];
  }

  lemma HeadIsUnique(t: seq<Sighting>)
    requires t != [] && UniqueAddresses(t)
    ensures t[0].address !in Addresses(t[1..])
    ensures UniqueAddresses(t[1..])
  {
    forall s | s in t[1..] ensures s.address != t[0].address {
      var j :| 0 <= j < |t[1..]| && t[1..][j] == s;
      assert t[j + 1] == s;
    }
  }

  lemma {:induction false} WithoutKeepsUnique(t: seq<Sighting>, b: string)
    requires UniqueAddresses(t)
    ensures UniqueAddresses(Without(t, b))
    ensures Addresses(Without(t, b)) == Addresses(t) - {b}
    decreases |t|
  {
    if t != [] {
      HeadIsUnique(t);
      WithoutKeepsUnique(t[1..], b);
      AddressesCons(t);
      var rest := Without(t[1..], b);
      if t[0].address != b {
        var r := [t[0]] + rest;
        assert Without(t, b) == r;
        assert r[1..] == rest;
        AddressesCons(r);
        ConsKeepsUnique(t[0], rest);
      } else {
        assert Without(t, b) == rest;
      }
    }
  }

  lemma ConsKeepsUnique(s: Sighting, rest: seq<Sighting>)
    requires UniqueAddresses(rest) && s.address !in Addresses(rest)
    ensures UniqueAddresses([s] + rest)
  {
    var r := [s] + rest;
    forall i, j | 0 <= i < j < |r| ensures r[i].address != r[j].address {
      assert r[j] == rest[j - 1];
      if i == 0 {
        assert r[j] in rest;
      } else {
        assert r[i] == rest[i - 1];
      }
    }
  }

  /** The dictionary after popping every address of `rs`, in order. */
  function PopAll(t: seq<Sighting>, rs: seq<string>): seq<Sighting> {
    if rs == [] then t else Without(PopAll(t, rs[..|rs| - 1]), rs[|rs| - 1])
  }

  lemma {:induction false} PopAllSpec(t: seq<Sighting>, rs: seq<string>)
    requires UniqueAddresses(t)
    ensures UniqueAddresses(PopAll(t, rs))
    ensures Addresses(PopAll(t, rs)) == Addresses(t) - set a | a in rs
    ensures forall a :: FirstWith(PopAll(t, rs), a) == if a in rs then None else FirstWith(t, a)
    decreases |rs|
  {
    if rs != [] {
      var init, b := rs[..|rs| - 1], rs[|rs| - 1];
      assert rs == init + [b];
      PopAllSpec(t, init);
      WithoutKeepsUnique(PopAll(t, init), b);
      forall a ensures FirstWith(PopAll(t, rs), a) == if a in rs then None else FirstWith(t, a) {
        FirstWithWithout(PopAll(t, init), b, a);
      }
    }
  }

  lemma {:induction false} UniqueAddressesCount(t: seq<Sighting>)
    requires UniqueAddresses(t)
    ensures |Addresses(t)| == |t|
    decreases |t|
  {
    if t != [] {
      HeadIsUnique(t);
      UniqueAddressesCount(t[1..]);
      AddressesCons(t);
    }
  }

  // ---------------------------------------------------------------------
  // The triples before and after sorting

  /** The triple for envelope recipient `a` when the dictionary is `t`. */
  function EnvelopeEntry(t: seq<Sighting>, a: string): Recipient {
    match FirstWith(t, a)
    case Some(s) => Recipient(Some(a), Mailbox(s.realname, a), s.kind)
    case None => Recipient(Some(a), Mailbox("", a), Bcc)
  }

  /** The triples of the envelope recipients `rs`, each popping its entry. */
  function EnvelopeEntries(t: seq<Sighting>, rs: seq<string>): (r: seq<Recipient>)
    ensures |r| == |rs|
  {
    if rs == [] then []
    else
      var init := rs[..|rs| - 1];
      EnvelopeEntries(t, init) + [EnvelopeEntry(PopAll(t, init), rs[|rs| - 1])]
  }

  /** The triples, with no envelope recipient, of the entries left in the dictionary. */
  function Remaining(t: seq<Sighting>): (r: seq<Recipient>)
    ensures |r| == |t|
    ensures forall i :: 0 <= i < |t| ==>
      r[i] == Recipient(None, Mailbox(t[i].realname, t[i].address), t[i].kind)
  {
    seq(|t|, i requires 0 <= i < |t| => Recipient(None, Mailbox(t[i].realname, t[i].address), t[i].kind))
  }

  /** The dictionary that the header scan of `recipients()` builds. */
  function Visible(hs: seq<Header>, parse: AddressParser): seq<Sighting> {
    SetDefaultAll(Sightings(hs, parse))
  }

  /** The result list of `recipients()` before `result.sort`. */
  function Unsorted(hs: seq<Header>, parse: AddressParser, rcpttos: seq<string>): seq<Recipient> {
    var t := Visible(hs, parse);
    EnvelopeEntries(t, rcpttos) + Remaining(PopAll(t, rcpttos))
  }

  /** The triples of `s` whose header has rank `n`, in their order in `s`. */
  function OfRank(s: seq<Recipient>, n: nat): (r: seq<Recipient>)
    ensures forall e :: e in r ==> e in s && e.kind.Rank() == n
  {
    if s == [] then []
    else (if s[0].kind.Rank() == n then [s[0]] else []) + OfRank(s[1..], n)
  }

  function RankSortFrom(s: seq<Recipient>, n: nat): seq<Recipient>
    decreases |Kinds| - n
  {
    if n >= |Kinds| then [] else OfRank(s, n) + RankSortFrom(s, n + 1)
  }

  /** `result.sort(key=lambda t: headers.index(t[2]))`: a stable sort by header rank. */
  function RankSort(s: seq<Recipient>): seq<Recipient> {
    RankSortFrom(s, 0)
  }

  /** The list `Envelope.recipients()` returns. */
  function RecipientsOf(hs: seq<Header>, parse: AddressParser, rcpttos: seq<string>): seq<Recipient> {
    RankSort(Unsorted(hs, parse, rcpttos))
  }

  // ---------------------------------------------------------------------
  // What recipients() promises

  /** The realname of the first mailbox for `a` in a header's list. */
  function FirstRealname(mbs: seq<Mailbox>, a: string): (r: Option<string>)
    ensures r.None? <==> a !in MailboxAddresses(mbs)
  {
    if mbs == [] then None
    else if mbs[0].address == a then Some(mbs[0].realname)
    else
      assert MailboxAddresses(mbs) == {mbs[0].address} + MailboxAddresses(mbs[1..]) by {
        assert mbs == [mbs[0]] + mbs[1..];
      }
      FirstRealname(mbs[1..], a)
  }

  /** Header `k` of the message names address `a`. */
  ghost predicate ListedIn(hs: seq<Header>, parse: AddressParser, a: string, k: HeaderKind) {
    a in MailboxAddresses(Listed(hs, parse, k))
  }

  lemma {:induction false} FirstWithConcat(x: seq<Sighting>, y: seq<Sighting>, a: string)
    ensures FirstWith(x + y, a) == if FirstWith(x, a).Some? then FirstWith(x, a) else FirstWith(y, a)
    decreases |x|
  {
    if x == [] {
      assert x + y == y;
    } else {
      assert (x + y)[1..] == x[1..] + y;
      FirstWithConcat(x[1..], y, a);
    }
  }

  lemma {:induction false} FirstWithTagged(mbs: seq<Mailbox>, k: HeaderKind, a: string)
    ensures FirstWith(Tagged(mbs, k), a)
         == match FirstRealname(mbs, a)
            case Some(r) => Some(Sighting(a, r, k))
            case None => None
    decreases |mbs|
  {
    if mbs != [] {
      assert Tagged(mbs, k)[1..] == Tagged(mbs[1..], k);
      FirstWithTagged(mbs[1..], k, a);
    }
  }

  /** The first sighting of `a` among the first `n` headers is in the first of them that lists it. */
  ghost predicate FirstSightingIn(hs: seq<Header>, parse: AddressParser, a: string, n: nat)
    requires n <= |Kinds|
  {
    FirstOfHeaders(hs, parse, a, n, FirstWith(SightingsUpTo(hs, parse, n), a))
  }

  /** `r` is the sighting of `a` in the first of the first `n` headers that lists it, if any does. */
  ghost predicate FirstOfHeaders(hs: seq<Header>, parse: AddressParser, a: string, n: nat, r: Option<Sighting>)
    requires n <= |Kinds|
  {
    && (r.None? <==> forall m :: 0 <= m < n ==> !ListedIn(hs, parse, a, Kinds[m]))
    && (r.Some? ==>
         && r.value.address == a
         && r.value.kind.Rank() < n
         && FirstRealname(Listed(hs, parse, r.value.kind), a) == Some(r.value.realname)
         && forall m :: 0 <= m < r.value.kind.Rank() ==> !ListedIn(hs, parse, a, Kinds[m]))
  }

  lemma {:induction false} FirstSightingUpTo(hs: seq<Header>, parse: AddressParser, a: string, n: nat)
    requires n <= |Kinds|
    ensures FirstSightingIn(hs, parse, a, n)
    decreases n
  {
    if n > 0 {
      FirstSightingUpTo(hs, parse, a, n - 1);
      var k := Kinds[n - 1];
      var prefix := SightingsUpTo(hs, parse, n - 1);
      assert SightingsUpTo(hs, parse, n) == prefix + Tagged(Listed(hs, parse, k), k);
      FirstWithConcat(prefix, Tagged(Listed(hs, parse, k), k), a);
      FirstWithTagged(Listed(hs, parse, k), k, a);
      var r0, r := FirstWith(prefix, a), FirstWith(SightingsUpTo(hs, parse, n), a);
      if r0.Some? {
        SeenBefore(hs, parse, a, n, r0);
      } else {
        SeenAt(hs, parse, a, n, r);
      }
    }
  }

  lemma SeenBefore(hs: seq<Header>, parse: AddressParser, a: string, n: nat, r: Option<Sighting>)
    requires 0 < n <= |Kinds| && FirstOfHeaders(hs, parse, a, n - 1, r) && r.Some?
    ensures FirstOfHeaders(hs, parse, a, n, r)
  {
    KindRank(r.value.kind.Rank());
    KindOfRank(r.value.kind);
    assert ListedIn(hs, parse, a, Kinds[r.value.kind.Rank()]);
  }

  lemma SeenAt(hs: seq<Header>, parse: AddressParser, a: string, n: nat, r: Option<Sighting>)
    requires 0 < n <= |Kinds| && FirstOfHeaders(hs, parse, a, n - 1, None)
    requires var k := Kinds[n - 1];
      r == match FirstRealname(Listed(hs, parse, k), a)
           case Some(rn) => Some(Sighting(a, rn, k))
           case None => None
    ensures FirstOfHeaders(hs, parse, a, n, r)
  {
    var k := Kinds[n - 1];
    KindRank(n - 1);
    if FirstRealname(Listed(hs, parse, k), a).None? {
      assert !ListedIn(hs, parse, a, k);
    } else {
      assert ListedIn(hs, parse, a, k);
    }
  }

  lemma KindOfRank(k: HeaderKind)
    ensures k.Rank() < |Kinds| && Kinds[k.Rank()] == k
  {
  }

  lemma KindRank(n: nat)
    requires n < |Kinds|
    ensures Kinds[n].Rank() == n
  {
  }

  /**
   * The header `recipients()` reports for an address is the first header,
   * in the order To, Resent-To, Cc, Resent-Cc, Bcc, Resent-Bcc, whose
   * mailboxes include it, with the realname of its first mailbox there;
   * an address that no header names has no entry.
   */
  lemma FirstSightingIsFirstHeader(hs: seq<Header>, parse: AddressParser, a: string)
    ensures FirstWith(Visible(hs, parse), a).None? <==> forall k: HeaderKind :: !ListedIn(hs, parse, a, k)
    ensures FirstWith(Visible(hs, parse), a).Some? ==>
      var s := FirstWith(Visible(hs, parse), a).value;
      && s.address == a
      && ListedIn(hs, parse, a, s.kind)
      && FirstRealname(Listed(hs, parse, s.kind), a) == Some(s.realname)
      && forall k: HeaderKind :: k.Rank() < s.kind.Rank() ==> !ListedIn(hs, parse, a, k)
  {
    KindsAreRanked();
    SetDefaultAllKeepsFirst(Sightings(hs, parse));
    FirstSightingUpTo(hs, parse, a, |Kinds|);
    var r := FirstWith(Sightings(hs, parse), a);
    assert FirstWith(Visible(hs, parse), a) == r;
    if r.None? {
      forall k: HeaderKind ensures !ListedIn(hs, parse, a, k) {
        assert Kinds[k.Rank()] == k;
      }
    } else {
      forall k: HeaderKind | k.Rank() < r.value.kind.Rank() ensures !ListedIn(hs, parse, a, k) {
        assert Kinds[k.Rank()] == k;
      }
      assert !forall k: HeaderKind :: !ListedIn(hs, parse, a, k);
    }
  }

  lemma {:induction false} EnvelopeEntriesAt(t: seq<Sighting>, rs: seq<string>, i: nat)
    requires i < |rs|
    ensures EnvelopeEntries(t, rs)[i] == EnvelopeEntry(PopAll(t, rs[..i]), rs[i])
    decreases |rs|
  {
    var init := rs[..|rs| - 1];
    assert EnvelopeEntries(t, rs) == EnvelopeEntries(t, init) + [EnvelopeEntry(PopAll(t, init), rs[|rs| - 1])];
    if i < |rs| - 1 {
      EnvelopeEntriesAt(t, init, i);
      assert init[..i] == rs[..i];
    } else {
      assert init == rs[..i];
    }
  }

  /**
   * Entry `i` of the unsorted list stands for envelope recipient
   * `rcpttos[i]`; it carries the header of the address's first sighting,
   * unless an earlier envelope recipient already popped that entry or no
   * header names the address, in which case it is labelled `Bcc` with an
   * empty realname.
   */
  lemma EnvelopeRecipientEntry(hs: seq<Header>, parse: AddressParser, rcpttos: seq<string>, i: nat)
    requires i < |rcpttos|
    ensures var a, e := rcpttos[i], Unsorted(hs, parse, rcpttos)[i];
      && e.rcpt == Some(a) && e.mailbox.address == a
      && ((a in rcpttos[..i] || forall k: HeaderKind :: !ListedIn(hs, parse, a, k)) ==>
            e.kind == Bcc && e.mailbox.realname == "")
      && ((a !in rcpttos[..i] && exists k: HeaderKind :: ListedIn(hs, parse, a, k)) ==>
            && ListedIn(hs, parse, a, e.kind)
            && FirstRealname(Listed(hs, parse, e.kind), a) == Some(e.mailbox.realname)
            && forall k: HeaderKind :: k.Rank() < e.kind.Rank() ==> !ListedIn(hs, parse, a, k))
  {
    var t := Visible(hs, parse);
    SetDefaultAllKeepsFirst(Sightings(hs, parse));
    EnvelopeEntriesAt(t, rcpttos, i);
    PopAllSpec(t, rcpttos[..i]);
    FirstSightingIsFirstHeader(hs, parse, rcpttos[i]);
  }

  /** The addresses that some recipient header names. */
  ghost function HeaderAddresses(hs: seq<Header>, parse: AddressParser): set<string> {
    Addresses(Visible(hs, parse))
  }

  lemma HeaderAddressesAreListed(hs: seq<Header>, parse: AddressParser, a: string)
    ensures a in HeaderAddresses(hs, parse) <==> exists k: HeaderKind :: ListedIn(hs, parse, a, k)
  {
    FirstSightingIsFirstHeader(hs, parse, a);
  }

  /**
   * After the envelope recipients come the addresses that only headers
   * name: one entry each, with no envelope address, tagged with the
   * address's first header. Hence the list has exactly one entry per
   * envelope recipient plus one per header-only address.
   */
  lemma HeaderOnlyEntries(hs: seq<Header>, parse: AddressParser, rcpttos: seq<string>)
    ensures var u, only := Unsorted(hs, parse, rcpttos), HeaderAddresses(hs, parse) - set a | a in rcpttos;
      && |u| == |rcpttos| + |only|
      && (forall j :: |rcpttos| <= j < |u| ==>
            && u[j].rcpt.None?
            && u[j].mailbox.address in only
            && Some(Sighting(u[j].mailbox.address, u[j].mailbox.realname, u[j].kind))
               == FirstWith(Visible(hs, parse), u[j].mailbox.address))
      && (forall j, j' :: |rcpttos| <= j < j' < |u| ==> u[j].mailbox.address != u[j'].mailbox.address)
      && (forall x :: x in only ==> exists j :: |rcpttos| <= j < |u| && u[j].mailbox.address == x)
  {
    var t := Visible(hs, parse);
    SetDefaultAllKeepsFirst(Sightings(hs, parse));
    var e, r := EnvelopeEntries(t, rcpttos), Remaining(PopAll(t, rcpttos));
    LeftOverEntries(t, rcpttos);
    AfterEnvelopeEntries(e, r, t, Addresses(t) - set a | a in rcpttos);
    assert Unsorted(hs, parse, rcpttos) == e + r;
  }

  /** What LeftOverEntries says of the dictionary's triples holds of them behind the envelope triples `e`. */
  lemma AfterEnvelopeEntries(e: seq<Recipient>, r: seq<Recipient>, t: seq<Sighting>, only: set<string>)
    requires |r| == |only|
    requires forall i :: 0 <= i < |r| ==>
      && r[i].rcpt.None?
      && r[i].mailbox.address in only
      && Some(Sighting(r[i].mailbox.address, r[i].mailbox.realname, r[i].kind)) == FirstWith(t, r[i].mailbox.address)
    requires forall i, i' :: 0 <= i < i' < |r| ==> r[i].mailbox.address != r[i'].mailbox.address
    requires forall x :: x in only ==> exists i :: 0 <= i < |r| && r[i].mailbox.address == x
    ensures var u := e + r;
      && |u| == |e| + |only|
      && (forall j :: |e| <= j < |u| ==>
            && u[j].rcpt.None?
            && u[j].mailbox.address in only
            && Some(Sighting(u[j].mailbox.address, u[j].mailbox.realname, u[j].kind)) == FirstWith(t, u[j].mailbox.address))
      && (forall j, j' :: |e| <= j < j' < |u| ==> u[j].mailbox.address != u[j'].mailbox.address)
      && (forall x :: x in only ==> exists j :: |e| <= j < |u| && u[j].mailbox.address == x)
  {
    var u, n := e + r, |e|;
    assert forall j :: n <= j < |u| ==> u[j] == r[j - n];
    forall x | x in only ensures exists j :: n <= j < |u| && u[j].mailbox.address == x {
      var i :| 0 <= i < |r| && r[i].mailbox.address == x;
      assert u[n + i] == r[i];
    }
  }

  /** The entries the envelope recipients leave in a dictionary `t` with one entry per address. */
  lemma LeftOverEntries(t: seq<Sighting>, rcpttos: seq<string>)
    requires UniqueAddresses(t)
    ensures var r, only := Remaining(PopAll(t, rcpttos)), Addresses(t) - set a | a in rcpttos;
      && |r| == |only|
      && (forall i :: 0 <= i < |r| ==>
            && r[i].rcpt.None?
            && r[i].mailbox.address in only
            && Some(Sighting(r[i].mailbox.address, r[i].mailbox.realname, r[i].kind)) == FirstWith(t, r[i].mailbox.address))
      && (forall i, i' :: 0 <= i < i' < |r| ==> r[i].mailbox.address != r[i'].mailbox.address)
      && (forall x :: x in only ==> exists i :: 0 <= i < |r| && r[i].mailbox.address == x)
  {
    PopAllSpec(t, rcpttos);
    var left := PopAll(t, rcpttos);
    UniqueAddressesCount(left);
    RemainingSpec(left);
  }

  /** The entries left in the dictionary, one triple each, in dictionary order. */
  lemma RemainingSpec(left: seq<Sighting>)
    requires UniqueAddresses(left)
    ensures var r := Remaining(left);
      && (forall i :: 0 <= i < |r| ==>
            && r[i].rcpt.None?
            && r[i].mailbox.address in Addresses(left)
            && FirstWith(left, r[i].mailbox.address) == Some(Sighting(r[i].mailbox.address, r[i].mailbox.realname, r[i].kind)))
      && (forall i, i' :: 0 <= i < i' < |r| ==> r[i].mailbox.address != r[i'].mailbox.address)
      && (forall x :: x in Addresses(left) ==> exists i :: 0 <= i < |r| && r[i].mailbox.address == x)
  {
    var r := Remaining(left);
    forall i | 0 <= i < |r|
      ensures r[i].mailbox.address in Addresses(left)
      ensures FirstWith(left, r[i].mailbox.address) == Some(Sighting(r[i].mailbox.address, r[i].mailbox.realname, r[i].kind))
    {
      assert left[i] in left;
      FirstWithUnique(left, i);
    }
    forall x | x in Addresses(left) ensures exists i :: 0 <= i < |r| && r[i].mailbox.address == x {
      var s :| s in left && s.address == x;
      var i :| 0 <= i < |left| && left[i] == s;
      assert r[i].mailbox.address == x;
    }
  }

  lemma FirstWithUnique(t: seq<Sighting>, i: nat)
    requires UniqueAddresses(t) && i < |t|
    ensures FirstWith(t, t[i].address) == Some(t[i])
  {
    if i > 0 {
      assert t[0].address != t[i].address;
      assert UniqueAddresses(t[1..]) by {
        forall p, q | 0 <= p < q < |t| - 1 ensures t[1..][p].address != t[1..][q].address {
          assert t[1..][p] == t[p + 1] && t[1..][q] == t[q + 1];
        }
      }
      FirstWithUnique(t[1..], i - 1);
    }
  }

  /**
   * The triples that carry an envelope address are exactly the envelope
   * recipients: every RCPT TO address is reported, and no header-only
   * address is reported as one.
   */
  lemma EnvelopeAddressesReported(hs: seq<Header>, parse: AddressParser, rcpttos: seq<string>, a: string)
    ensures var r := RecipientsOf(hs, parse, rcpttos);
      (exists i :: 0 <= i < |r| && r[i].rcpt == Some(a)) <==> a in rcpttos
  {
    var u := Unsorted(hs, parse, rcpttos);
    assert RecipientsOf(hs, parse, rcpttos) == RankSort(u);
    UnsortedRcpts(hs, parse, rcpttos);
    ReportedRcpts(u, rcpttos, a);
  }

  /** The list before sorting starts with one triple per envelope recipient, in order; the rest have none. */
  lemma UnsortedRcpts(hs: seq<Header>, parse: AddressParser, rcpttos: seq<string>)
    ensures var u := Unsorted(hs, parse, rcpttos);
      && |rcpttos| <= |u|
      && forall j :: 0 <= j < |u| ==> u[j].rcpt == if j < |rcpttos| then Some(rcpttos[j]) else None
  {
    var u := Unsorted(hs, parse, rcpttos);
    forall j | 0 <= j < |u| ensures u[j].rcpt == if j < |rcpttos| then Some(rcpttos[j]) else None {
      UnsortedAddress(hs, parse, rcpttos, j);
    }
  }

  lemma ReportedRcpts(u: seq<Recipient>, rcpttos: seq<string>, a: string)
    requires |rcpttos| <= |u|
    requires forall j :: 0 <= j < |u| ==> u[j].rcpt == if j < |rcpttos| then Some(rcpttos[j]) else None
    ensures var r := RankSort(u);
      (exists i :: 0 <= i < |r| && r[i].rcpt == Some(a)) <==> a in rcpttos
  {
    var r := RankSort(u);
    SameMembers(u);
    if a in rcpttos {
      var i :| 0 <= i < |rcpttos| && rcpttos[i] == a;
      assert u[i] in r;
    }
    if exists i :: 0 <= i < |r| && r[i].rcpt == Some(a) {
      var i :| 0 <= i < |r| && r[i].rcpt == Some(a);
      assert r[i] in u;
      var j :| 0 <= j < |u| && u[j] == r[i];
    }
  }

  lemma SameMembers(u: seq<Recipient>)
    ensures forall x :: x in RankSort(u) <==> x in u
  {
    RankSortIsStableSort(u);
    forall x ensures x in RankSort(u) <==> x in u {
      assert x in multiset(RankSort(u)) <==> x in multiset(u);
    }
  }

  lemma UnsortedAddress(hs: seq<Header>, parse: AddressParser, rcpttos: seq<string>, j: nat)
    requires j < |Unsorted(hs, parse, rcpttos)|
    ensures j < |rcpttos| ==> Unsorted(hs, parse, rcpttos)[j].rcpt == Some(rcpttos[j])
    ensures j >= |rcpttos| ==> Unsorted(hs, parse, rcpttos)[j].rcpt.None?
  {
    if j < |rcpttos| {
      EnvelopeRecipientEntry(hs, parse, rcpttos, j);
    }
  }

  // The stable sort by header rank

  predicate RankSorted(s: seq<Recipient>) {
    forall i, j :: 0 <= i < j < |s| ==> s[i].kind.Rank() <= s[j].kind.Rank()
  }

  lemma {:induction false} RankSortFromSorted(s: seq<Recipient>, n: nat)
    ensures RankSorted(RankSortFrom(s, n))
    ensures forall e :: e in RankSortFrom(s, n) ==> e.kind.Rank() >= n
    decreases |Kinds| - n
  {
    if n < |Kinds| {
      RankSortFromSorted(s, n + 1);
      RankSortedConcat(OfRank(s, n), RankSortFrom(s, n + 1), n);
    }
  }

  /** The triples of rank `n` followed by rank-sorted triples of higher rank are rank-sorted. */
  lemma RankSortedConcat(a: seq<Recipient>, b: seq<Recipient>, n: nat)
    requires forall e :: e in a ==> e.kind.Rank() == n
    requires forall e :: e in b ==> e.kind.Rank() >= n + 1
    requires RankSorted(b)
    ensures RankSorted(a + b)
    ensures forall e :: e in a + b ==> e.kind.Rank() >= n
  {
    var c := a + b;
    forall i: int, j: int | 0 <= i < j < |c| ensures c[i].kind.Rank() <= c[j].kind.Rank() {
      if j < |a| {
        assert c[i] in a && c[j] in a;
      } else if i < |a| {
        assert c[i] in a && c[j] == b[j - |a|] && c[j] in b;
      } else {
        assert c[i] == b[i - |a|] && c[j] == b[j - |a|];
      }
    }
    forall e | e in c ensures e.kind.Rank() >= n {
      assert e in a || e in b;
    }
  }

  function AtLeastRank(s: seq<Recipient>, n: nat): seq<Recipient> {
    if s == [] then []
    else (if s[0].kind.Rank() >= n then [s[0]] else []) + AtLeastRank(s[1..], n)
  }

  lemma {:induction false} AtLeastRankSplit(s: seq<Recipient>, n: nat)
    ensures multiset(AtLeastRank(s, n)) == multiset(OfRank(s, n)) + multiset(AtLeastRank(s, n + 1))
    decreases |s|
  {
    if s != [] {
      AtLeastRankSplit(s[1..], n);
    }
  }

  lemma {:induction false} AtLeastRankBounds(s: seq<Recipient>)
    ensures AtLeastRank(s, 0) == s
    ensures AtLeastRank(s, |Kinds|) == []
    decreases |s|
  {
    if s != [] {
      AtLeastRankBounds(s[1..]);
      assert s == [s[0]] + s[1..];
    }
  }

  lemma {:induction false} RankSortFromMultiset(s: seq<Recipient>, n: nat)
    requires n <= |Kinds|
    ensures multiset(RankSortFrom(s, n)) == multiset(AtLeastRank(s, n))
    decreases |Kinds| - n
  {
    if n < |Kinds| {
      RankSortFromMultiset(s, n + 1);
      AtLeastRankSplit(s, n);
    } else {
      AtLeastRankBounds(s);
    }
  }

  lemma {:induction false} OfRankConcat(a: seq<Recipient>, b: seq<Recipient>, n: nat)
    ensures OfRank(a + b, n) == OfRank(a, n) + OfRank(b, n)
    decreases |a|
  {
    if a == [] {
      assert a + b == b;
    } else {
      assert (a + b)[1..] == a[1..] + b;
      OfRankConcat(a[1..], b, n);
    }
  }

  lemma {:induction false} OfRankOfRank(s: seq<Recipient>, m: nat, n: nat)
    ensures OfRank(OfRank(s, m), n) == if m == n then OfRank(s, n) else []
    decreases |s|
  {
    if s != [] {
      OfRankOfRank(s[1..], m, n);
      OfRankConcat(if s[0].kind.Rank() == m then [s[0]] else [], OfRank(s[1..], m), n);
    }
  }

  lemma {:induction false} RankSortFromStable(s: seq<Recipient>, m: nat, n: nat)
    ensures OfRank(RankSortFrom(s, m), n) == if m <= n < |Kinds| then OfRank(s, n) else []
    decreases |Kinds| - m
  {
    if m >= |Kinds| {
      assert RankSortFrom(s, m) == [];
    } else if n < m {
      StableBelow(s, m, n);
    } else if n == m {
      StableAt(s, m);
    } else {
      RankSortFromStable(s, m + 1, n);
      StableAbove(s, m, n);
    }
  }

  lemma StableBelow(s: seq<Recipient>, m: nat, n: nat)
    requires n < m
    ensures OfRank(RankSortFrom(s, m), n) == []
  {
    RankSortFromSorted(s, m);
    OfRankNone(RankSortFrom(s, m), n);
  }

  lemma StableAt(s: seq<Recipient>, m: nat)
    requires m < |Kinds|
    ensures OfRank(RankSortFrom(s, m), m) == OfRank(s, m)
  {
    var a, b := OfRank(s, m), RankSortFrom(s, m + 1);
    assert RankSortFrom(s, m) == a + b;
    OfRankConcat(a, b, m);
    OfRankOfRank(s, m, m);
    StableBelow(s, m + 1, m);
    assert OfRank(a, m) + [] == OfRank(a, m);
  }

  lemma StableAbove(s: seq<Recipient>, m: nat, n: nat)
    requires m < n && m < |Kinds|
    ensures OfRank(RankSortFrom(s, m), n) == OfRank(RankSortFrom(s, m + 1), n)
  {
    var a, b := OfRank(s, m), RankSortFrom(s, m + 1);
    assert RankSortFrom(s, m) == a + b;
    OfRankConcat(a, b, n);
    OfRankOfRank(s, m, n);
    assert [] + OfRank(b, n) == OfRank(b, n);
  }

  lemma {:induction false} OfRankNone(s: seq<Recipient>, n: nat)
    requires forall e :: e in s ==> e.kind.Rank() != n
    ensures OfRank(s, n) == []
    decreases |s|
  {
    if s != [] {
      assert s[0] in s;
      assert forall e :: e in s[1..] ==> e in s;
      OfRankNone(s[1..], n);
    }
  }

  /**
   * `result.sort(key=headers.index)` is a stable sort: the list is ordered
   * by header rank, is a permutation of its input, and keeps the relative
   * order of the entries of each header.
   */
  lemma RankSortIsStableSort(s: seq<Recipient>)
    ensures RankSorted(RankSort(s))
    ensures multiset(RankSort(s)) == multiset(s)
    ensures forall k: HeaderKind :: OfRank(RankSort(s), k.Rank()) == OfRank(s, k.Rank())
  {
    RankSortFromSorted(s, 0);
    RankSortFromMultiset(s, 0);
    AtLeastRankBounds(s);
    forall k: HeaderKind ensures OfRank(RankSort(s), k.Rank()) == OfRank(s, k.Rank()) {
      KindsAreRanked();
      RankSortFromStable(s, 0, k.Rank());
    }
  }

  // ---------------------------------------------------------------------
  // The envelope object

  /** The state of an `Envelope`: its message, MAIL FROM and RCPT TO list. */
  datatype EnvelopeValue = EnvelopeValue(message: MessageValue, mailfrom: string, rcpttos: seq<string>)

  class Envelope {
    const message: Message
    const mailfrom: string
    const rcpttos: seq<string>

    function Value(): EnvelopeValue
      reads message
    {
      EnvelopeValue(message.Value(), mailfrom, rcpttos)
    }

    constructor (message: Message, mailfrom: string, rcpttos: seq<string>)
      ensures this.message == message && this.mailfrom == mailfrom && this.rcpttos == rcpttos
    {
      this.message := message;
      this.mailfrom := mailfrom;
      this.rcpttos := rcpttos;
    }

    /** `copy.deepcopy(envelope)`: a fresh envelope around a fresh copy of the message. */
    method Copy() returns (e: Envelope)
      ensures fresh(e) && fresh(e.message)
      ensures e.message.Value() == message.Value()
      ensures e.mailfrom == mailfrom && e.rcpttos == rcpttos
    {
      var m := message.Copy();
      e := new Envelope(m, mailfrom, rcpttos);
    }

    /**
     * `recipients()`: one triple per envelope recipient, tagged with the
     * first header that shows it (`Bcc` when none does), then one triple
     * with no envelope address for every address that only a header shows,
     * stably sorted by header rank.
     */
    method Recipients(parse: AddressParser) returns (result: seq<Recipient>)
      ensures result == RecipientsOf(message.headers, parse, rcpttos)
    {
      var visible := CollectVisible(message.headers, parse);
      var entries, left := PopEnvelopeRecipients(visible, rcpttos);
      result := entries;
      var j := 0;
      while j < |left|
        invariant 0 <= j <= |left|
        invariant result == entries + Remaining(left[..j])
      {
        var s := left[j];
        RemainingSnoc(left, j);
        result := result + [Recipient(None, Mailbox(s.realname, s.address), s.kind)];
        j := j + 1;
      }
      assert left[..|left|] == left;
      assert result == Unsorted(message.headers, parse, rcpttos);
      result := RankSort(result);
    }
  }

  /** The header scan of `recipients()`, filling `visible_recipients`. */
  method CollectVisible(hs: seq<Header>, parse: AddressParser) returns (visible: seq<Sighting>)
    ensures visible == Visible(hs, parse)
  {
    visible := [];
    ghost var seen: seq<Sighting> := [];
    var k := 0;
    while k < |Kinds|
      invariant 0 <= k <= |Kinds|
      invariant seen == SightingsUpTo(hs, parse, k)
      invariant visible == SetDefaultAll(seen)
    {
      var kind := Kinds[k];
      var rawValues := AllValues(hs, kind.Field());
      SightingsStep(hs, parse, k);
      if rawValues != [] {
        var mailboxes := parse(rawValues);
        visible := SetDefaultEach(visible, seen, mailboxes, kind);
      }
      seen := SightingsUpTo(hs, parse, k + 1);
      k := k + 1;
    }
  }

  lemma SightingsStep(hs: seq<Header>, parse: AddressParser, k: nat)
    requires k < |Kinds|
    ensures var kind := Kinds[k]; var raw := AllValues(hs, kind.Field());
      && (raw == [] ==> SightingsUpTo(hs, parse, k + 1) == SightingsUpTo(hs, parse, k))
      && (raw != [] ==> SightingsUpTo(hs, parse, k + 1) == SightingsUpTo(hs, parse, k) + Tagged(parse(raw), kind))
  {
    var kind := Kinds[k];
    if AllValues(hs, kind.Field()) == [] {
      assert Tagged(Listed(hs, parse, kind), kind) == [];
      assert SightingsUpTo(hs, parse, k) + [] == SightingsUpTo(hs, parse, k);
    }
  }

  lemma RemainingSnoc(t: seq<Sighting>, j: nat)
    requires j < |t|
    ensures Remaining(t[..j + 1]) == Remaining(t[..j]) + [Recipient(None, Mailbox(t[j].realname, t[j].address), t[j].kind)]
  {
  }

  /** The inner loop of the header scan: `setdefault` for each mailbox of one header. */
  method SetDefaultEach(visible0: seq<Sighting>, ghost seen: seq<Sighting>, mailboxes: seq<Mailbox>, kind: HeaderKind)
    returns (visible: seq<Sighting>)
    requires visible0 == SetDefaultAll(seen)
    ensures visible == SetDefaultAll(seen + Tagged(mailboxes, kind))
  {
    visible := visible0;
    var j := 0;
    assert seen + Tagged(mailboxes[..0], kind) == seen;
    while j < |mailboxes|
      invariant 0 <= j <= |mailboxes|
      invariant visible == SetDefaultAll(seen + Tagged(mailboxes[..j], kind))
    {
      var s := Sighting(mailboxes[j].address, mailboxes[j].realname, kind);
      SetDefaultEachStep(seen, mailboxes, j, kind);
      visible := SetDefault(visible, s);
      j := j + 1;
    }
    assert mailboxes[..|mailboxes|] == mailboxes;
  }

  lemma SetDefaultEachStep(seen: seq<Sighting>, mbs: seq<Mailbox>, j: nat, k: HeaderKind)
    requires j < |mbs|
    ensures SetDefaultAll(seen + Tagged(mbs[..j + 1], k))
         == SetDefault(SetDefaultAll(seen + Tagged(mbs[..j], k)), Sighting(mbs[j].address, mbs[j].realname, k))
  {
    var s := Sighting(mbs[j].address, mbs[j].realname, k);
    TaggedSnoc(mbs, j, k);
    assert seen + Tagged(mbs[..j + 1], k) == (seen + Tagged(mbs[..j], k)) + [s];
    SetDefaultAllSnoc(seen + Tagged(mbs[..j], k), s);
  }

  lemma TaggedSnoc(mbs: seq<Mailbox>, j: nat, k: HeaderKind)
    requires j < |mbs|
    ensures Tagged(mbs[..j + 1], k) == Tagged(mbs[..j], k) + [Sighting(mbs[j].address, mbs[j].realname, k)]
  {
    var a, b := Tagged(mbs[..j + 1], k), Tagged(mbs[..j], k) + [Sighting(mbs[j].address, mbs[j].realname, k)];
    assert |a| == |b|;
    forall i | 0 <= i < |a| ensures a[i] == b[i] {
      if i < j {
        assert mbs[..j + 1][i] == mbs[..j][i];
      }
    }
  }

  lemma SetDefaultAllSnoc(ss: seq<Sighting>, s: Sighting)
    ensures SetDefaultAll(ss + [s]) == SetDefault(SetDefaultAll(ss), s)
  {
    assert (ss + [s])[..|ss|] == ss;
  }

  /** The loop over the envelope recipients of `recipients()`, popping each one's entry. */
  method PopEnvelopeRecipients(table: seq<Sighting>, rcpttos: seq<string>)
    returns (result: seq<Recipient>, visible: seq<Sighting>)
    ensures result == EnvelopeEntries(table, rcpttos)
    ensures visible == PopAll(table, rcpttos)
  {
    visible := table;
    result := [];
    var i := 0;
    while i < |rcpttos|
      invariant 0 <= i <= |rcpttos|
      invariant visible == PopAll(table, rcpttos[..i])
      invariant result == EnvelopeEntries(table, rcpttos[..i])
    {
      var address := rcpttos[i];
      var realname, kind := "", Bcc;
      match FirstWith(visible, address) {
        case Some(s) => realname, kind := s.realname, s.kind;
        case None =>
      }
      PopStep(table, rcpttos, i);
      visible := Without(visible, address);
      result := result + [Recipient(Some(address), Mailbox(realname, address), kind)];
      i := i + 1;
    }
    assert rcpttos[..|rcpttos|] == rcpttos;
  }

  lemma PopStep(t: seq<Sighting>, rs: seq<string>, i: nat)
    requires i < |rs|
    ensures PopAll(t, rs[..i + 1]) == Without(PopAll(t, rs[..i]), rs[i])
    ensures EnvelopeEntries(t, rs[..i + 1]) == EnvelopeEntries(t, rs[..i]) + [EnvelopeEntry(PopAll(t, rs[..i]), rs[i])]
  {
    assert rs[..i + 1][..i] == rs[..i];
  }
}
