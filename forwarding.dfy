/**
 * `emailtunnel.SMTPForwarder`: translating the envelope recipients,
 * the optional extra headers, flat and grouped delivery, and the SMTP
 * replies of `process_message` and `Handler.handle_DATA`.
 *
 * The methods a subclass overrides (translate_recipient,
 * handle_invalid_recipient, translate_subject, get_envelope_mailfrom,
 * get_envelope_received, get_group_recipients, the get_*_header hooks) are
 * function-valued fields of `Hooks`, each of which may raise; the relay is
 * a sink that records every delivery it accepts.
 */
module Forwarding {
  import opened Common
  import opened Sorting
  import opened Messages
  import opened Envelopes

  /**
   * One element of a list that translate_recipient returns: an address
   * string, `None`, or an object a subclass uses to stand for a group
   * (identified here by an opaque tag).
   */
  datatype Target = Addr(address: string) | NoTarget | Group(tag: int)

  /** Python truthiness of a target: the empty string and `None` are false. */
  predicate Truthy(t: Target) {
    match t
    case Addr(a) => a != ""
    case NoTarget => false
    case Group(_) => true
  }

  /** What one call of translate_recipient does. */
  datatype Translation =
    | Targets(targets: seq<Target>)   // returns a list
    | Rejected(args: seq<PyValue>)    // raises InvalidRecipient(*args)
    | ReturnsString(s: string)        // returns a str instead of a list
    | Raises                          // raises any other exception

  /** An exception leaving a forwarder operation. */
  datatype Failure =
    | InvalidRecipientError(args: seq<PyValue>)
    | ValueError
    | OtherError
    | DeliveryError

  /** The peer of the SMTP session. */
  datatype Peer = Peer(ipaddr: string, port: int)

  /** One call of `deliver(message, recipients, sender)`. */
  datatype Delivery = Delivery(message: MessageValue, recipients: seq<string>, sender: string)

  /** The outcome of calling an overridable method: the value it returns, or an exception it raises. */
  datatype Call<T> = Returns(value: T) | Throws

  /** A get_*_header hook: the header value for this envelope and group, `None`, or an exception. */
  type ExtraHook = (EnvelopeValue, Target) -> Call<Option<string>>

  /**
   * The overridable behaviour of a forwarder. Each method a subclass may
   * supply can raise; `mailfrom` and `received` are asked with the group
   * (`Some`) on the grouped path and without one (`None`) on the flat path.
   */
  datatype Hooks = Hooks(
    parseAddresses: AddressParser,
    parseMessage: seq<bv8> -> Option<MessageValue>,
    translate: string -> Translation,
    handleInvalidRecipient: (EnvelopeValue, seq<PyValue>) -> Call<()>,
    translateSubject: EnvelopeValue -> Call<Option<string>>,
    mailfrom: (EnvelopeValue, Option<Target>) -> Call<string>,
    received: (EnvelopeValue, Peer, Option<Target>) -> Call<Option<string>>,
    groupRecipients: Target -> Call<seq<string>>,
    extra: map<string, ExtraHook>,
    relayAccepts: Delivery -> bool)

  /** What handle_envelope gives back: a status line, `None`, or an exception. */
  datatype Return = Status(line: string) | NoStatus | Raised(error: Failure)

  const MailboxUnavailable := "550 Requested action not taken: mailbox unavailable"
  const ProcessingError := "451 Requested action aborted: error in processing"
  const Accepted := "250 OK"

  // ---------------------------------------------------------------------
  // get_envelope_recipients

  /** The base class's translate_recipient: the address itself. */
  function DefaultTranslate(rcptto: string): Translation {
    Targets([Addr(rcptto)])
  }

  /** The translation of an entry, when it has an envelope address. */
  function TranslationOf(r: Recipient, tr: string -> Translation): Option<Translation> {
    if r.rcpt.Some? then Some(tr(r.rcpt.value)) else None
  }

  /** The exception that a translation lets escape at once. */
  function Fatal(t: Translation): Option<Failure> {
    match t
    case ReturnsString(_) => Some(ValueError)
    case Raises => Some(OtherError)
    case _ => None
  }

  /** What goes into `invalid` for `InvalidRecipient(*args)`: the sole argument, else the exception. */
  function Reported(args: seq<PyValue>): PyValue {
    if |args| == 1 then args[0] else InvalidRecipientExc(args)
  }

  /** The first exception that escapes while translating `rs` in order. */
  function FirstFatal(rs: seq<Recipient>, tr: string -> Translation): Option<Failure> {
    if rs == [] then None
    else
      var init := rs[..|rs| - 1];
      match FirstFatal(init, tr)
      case Some(e) => Some(e)
      case None =>
        match TranslationOf(rs[|rs| - 1], tr)
        case Some(t) => Fatal(t)
        case None => None
  }

  /** The collected failures of the entries of `rs`, in order. */
  function Collected(rs: seq<Recipient>, tr: string -> Translation): seq<PyValue> {
    if rs == [] then []
    else
      var init := rs[..|rs| - 1];
      Collected(init, tr) +
        match TranslationOf(rs[|rs| - 1], tr)
        case Some(Rejected(args)) => [Reported(args)]
        case _ => []
  }

  /** The translations of the entries of `rs`, concatenated in order. */
  function Concatenated(rs: seq<Recipient>, tr: string -> Translation): seq<Target> {
    if rs == [] then []
    else
      var init := rs[..|rs| - 1];
      Concatenated(init, tr) +
        match TranslationOf(rs[|rs| - 1], tr)
        case Some(Targets(ts)) => ts
        case _ => []
  }

  /**
   * The outcome of get_envelope_recipients over the triples of
   * `recipients()`: the first escaping exception; else, when some address
   * was rejected, one InvalidRecipient carrying the list of every
   * rejection; else the concatenated translations.
   */
  function EnvelopeRecipientsOf(rs: seq<Recipient>, tr: string -> Translation): Result<seq<Target>, Failure> {
    match FirstFatal(rs, tr)
    case Some(e) => Err(e)
    case None =>
      var invalid := Collected(rs, tr);
      if invalid != [] then Err(InvalidRecipientError([List(invalid)]))
      else Ok(Concatenated(rs, tr))
  }

  lemma {:induction false} FirstFatalSpec(rs: seq<Recipient>, tr: string -> Translation)
    ensures FirstFatal(rs, tr).None? <==>
      forall i :: 0 <= i < |rs| && rs[i].rcpt.Some? ==> Fatal(tr(rs[i].rcpt.value)).None?
    ensures FirstFatal(rs, tr).Some? ==>
      exists i :: && 0 <= i < |rs| && rs[i].rcpt.Some?
                  && FirstFatal(rs, tr) == Fatal(tr(rs[i].rcpt.value))
                  && forall j :: 0 <= j < i && rs[j].rcpt.Some? ==> Fatal(tr(rs[j].rcpt.value)).None?
    decreases |rs|
  {
    if rs != [] {
      var init := rs[..|rs| - 1];
      FirstFatalSpec(init, tr);
      assert forall i :: 0 <= i < |init| ==> init[i] == rs[i];
    }
  }

  /** Whether the translation of entry `r` raised InvalidRecipient and contributes `v` to `invalid`. */
  predicate RejectedWith(r: Recipient, tr: string -> Translation, v: PyValue) {
    r.rcpt.Some? && tr(r.rcpt.value).Rejected? && v == Reported(tr(r.rcpt.value).args)
  }

  lemma {:induction false} CollectedSpec(rs: seq<Recipient>, tr: string -> Translation, v: PyValue)
    ensures v in Collected(rs, tr) <==> exists i :: 0 <= i < |rs| && RejectedWith(rs[i], tr, v)
    decreases |rs|
  {
    if rs != [] {
      var init, last := rs[..|rs| - 1], rs[|rs| - 1];
      CollectedSpec(init, tr, v);
      var tail := match TranslationOf(last, tr) case Some(Rejected(args)) => [Reported(args)] case _ => [];
      assert Collected(rs, tr) == Collected(init, tr) + tail;
      assert v in tail <==> RejectedWith(last, tr, v);
      assert forall i :: 0 <= i < |init| ==> init[i] == rs[i];
    }
  }

  lemma {:induction false} CollectedEmpty(rs: seq<Recipient>, tr: string -> Translation)
    ensures Collected(rs, tr) == [] <==>
      forall i :: 0 <= i < |rs| && rs[i].rcpt.Some? ==> !tr(rs[i].rcpt.value).Rejected?
    decreases |rs|
  {
    if rs != [] {
      var init := rs[..|rs| - 1];
      CollectedEmpty(init, tr);
      assert forall i :: 0 <= i < |init| ==> init[i] == rs[i];
    }
  }

  lemma {:induction false} ConcatenatedSpec(rs: seq<Recipient>, tr: string -> Translation, t: Target)
    ensures t in Concatenated(rs, tr) <==>
      exists i :: 0 <= i < |rs| && rs[i].rcpt.Some? && tr(rs[i].rcpt.value).Targets?
               && t in tr(rs[i].rcpt.value).targets
    decreases |rs|
  {
    if rs != [] {
      var init := rs[..|rs| - 1];
      ConcatenatedSpec(init, tr, t);
      assert forall i :: 0 <= i < |init| ==> init[i] == rs[i];
    }
  }

  /**
   * get_envelope_recipients succeeds exactly when every envelope address
   * translates to a list, and then returns every translated target; when
   * no exception escapes early, every rejected address is reported in the
   * one InvalidRecipient it raises, and nothing else is.
   */
  lemma EnvelopeRecipientsOutcome(rs: seq<Recipient>, tr: string -> Translation)
    ensures EnvelopeRecipientsOf(rs, tr).Ok? <==>
      forall i :: 0 <= i < |rs| && rs[i].rcpt.Some? ==> tr(rs[i].rcpt.value).Targets?
    ensures EnvelopeRecipientsOf(rs, tr).Ok? ==> forall t ::
      t in EnvelopeRecipientsOf(rs, tr).value <==>
      exists i :: 0 <= i < |rs| && rs[i].rcpt.Some? && t in tr(rs[i].rcpt.value).targets
    ensures EnvelopeRecipientsOf(rs, tr).Err? && EnvelopeRecipientsOf(rs, tr).error.InvalidRecipientError? ==>
      && FirstFatal(rs, tr).None?
      && EnvelopeRecipientsOf(rs, tr).error.args == [List(Collected(rs, tr))]
      && forall v :: v in Collected(rs, tr) <==> exists i :: 0 <= i < |rs| && RejectedWith(rs[i], tr, v)
  {
    FirstFatalSpec(rs, tr);
    forall v ensures v in Collected(rs, tr) <==> exists i :: 0 <= i < |rs| && RejectedWith(rs[i], tr, v) {
      CollectedSpec(rs, tr, v);
    }
    forall t ensures t in Concatenated(rs, tr) <==>
      exists i :: 0 <= i < |rs| && rs[i].rcpt.Some? && tr(rs[i].rcpt.value).Targets?
               && t in tr(rs[i].rcpt.value).targets
    {
      ConcatenatedSpec(rs, tr, t);
    }
    CollectedEmpty(rs, tr);
  }

  /**
   * With the base class's translate_recipient, the targets are the
   * envelope recipients: nothing is rejected, every RCPT TO address is a
   * target, and nothing else is.
   */
  lemma DefaultTranslationKeepsRcpttos(hs: seq<Header>, parse: AddressParser, rcpttos: seq<string>)
    ensures var r := EnvelopeRecipientsOf(RecipientsOf(hs, parse, rcpttos), DefaultTranslate);
      && r.Ok?
      && (forall t :: t in r.value ==> t.Addr?)
      && forall a :: Addr(a) in r.value <==> a in rcpttos
  {
    var rs := RecipientsOf(hs, parse, rcpttos);
    EnvelopeRecipientsOutcome(rs, DefaultTranslate);
    forall a ensures Addr(a) in EnvelopeRecipientsOf(rs, DefaultTranslate).value <==> a in rcpttos {
      EnvelopeAddressesReported(hs, parse, rcpttos, a);
      if a in rcpttos {
        var i :| 0 <= i < |rs| && rs[i].rcpt == Some(a);
        assert Addr(a) in DefaultTranslate(rs[i].rcpt.value).targets;
      }
    }
  }

  /** One step of the scan, as the loop of get_envelope_recipients takes it. */
  lemma ScanSnoc(rs: seq<Recipient>, tr: string -> Translation, i: nat)
    requires i < |rs|
    ensures var p, t := rs[..i], TranslationOf(rs[i], tr);
      && FirstFatal(rs[..i + 1], tr)
         == (if FirstFatal(p, tr).Some? then FirstFatal(p, tr) else if t.Some? then Fatal(t.value) else None)
      && Collected(rs[..i + 1], tr)
         == Collected(p, tr) + (if t.Some? && t.value.Rejected? then [Reported(t.value.args)] else [])
      && Concatenated(rs[..i + 1], tr)
         == Concatenated(p, tr) + (if t.Some? && t.value.Targets? then t.value.targets else [])
  {
    assert rs[..i + 1][..i] == rs[..i];
    assert rs[..i + 1][i] == rs[i];
  }

  lemma {:induction false} FirstFatalPrefix(rs: seq<Recipient>, tr: string -> Translation, n: nat)
    requires n <= |rs| && FirstFatal(rs[..n], tr).Some?
    ensures FirstFatal(rs, tr) == FirstFatal(rs[..n], tr)
    decreases |rs|
  {
    if n < |rs| {
      var init := rs[..|rs| - 1];
      assert init[..n] == rs[..n];
      FirstFatalPrefix(init, tr, n);
    } else {
      assert rs[..n] == rs;
    }
  }

  // ---------------------------------------------------------------------
  // get_extra_headers

  /** The optional fields, in the order get_extra_headers asks for them. */
  const ExtraFields: seq<string> := ["Sender", "List-Id", "List-Unsubscribe", "List-Help", "List-Subscribe"]

  function Underscored(s: string): (r: string)
    ensures |r| == |s|
  {
    seq(|s|, i requires 0 <= i < |s| => if s[i] == '-' then '_' else s[i])
  }

  /** `'get_%s_header' % h.lower().replace('-', '_')` */
  function HookName(field: string): string {
    "get_" + Underscored(Lower(field)) + "_header"
  }

  /** The value of a field's hook, `None` when the forwarder has no such method or the method raises. */
  function HookValue(extra: map<string, ExtraHook>, field: string, env: EnvelopeValue, group: Target): Option<string> {
    var name := HookName(field);
    if name in extra && extra[name](env, group).Returns? then extra[name](env, group).value else None
  }

  /** Whether the forwarder has the field's hook and it raises. */
  predicate HookRaises(extra: map<string, ExtraHook>, field: string, env: EnvelopeValue, group: Target) {
    var name := HookName(field);
    name in extra && extra[name](env, group).Throws?
  }

  /** Whether the hook of one of the first `n` optional fields raises. */
  predicate ExtraRaisesUpTo(extra: map<string, ExtraHook>, env: EnvelopeValue, group: Target, n: nat)
    requires n <= |ExtraFields|
  {
    exists p :: 0 <= p < n && HookRaises(extra, ExtraFields[p], env, group)
  }

  /** get_extra_headers: the pairs, or the exception of a hook that raises. */
  function ExtraHeadersCall(extra: map<string, ExtraHook>, env: EnvelopeValue, group: Target): Call<seq<Header>> {
    if ExtraRaisesUpTo(extra, env, group, |ExtraFields|) then Throws else Returns(ExtraHeaders(extra, env, group))
  }

  /** The (field, value) pairs of the first `n` optional fields. */
  function ExtraHeadersUpTo(extra: map<string, ExtraHook>, env: EnvelopeValue, group: Target, n: nat): seq<Header>
    requires n <= |ExtraFields|
  {
    if n == 0 then []
    else
      ExtraHeadersUpTo(extra, env, group, n - 1) +
        match HookValue(extra, ExtraFields[n - 1], env, group)
        case Some(v) => [Header(ExtraFields[n - 1], v)]
        case None => []
  }

  function ExtraHeaders(extra: map<string, ExtraHook>, env: EnvelopeValue, group: Target): seq<Header> {
    ExtraHeadersUpTo(extra, env, group, |ExtraFields|)
  }

  /** The position of a field in `ExtraFields`; 5 for any other name. */
  function FieldRank(field: string): (r: nat)
    ensures r <= |ExtraFields|
    ensures r < |ExtraFields| ==> ExtraFields[r] == field
  {
    if field == ExtraFields[0] then 0
    else if field == ExtraFields[1] then 1
    else if field == ExtraFields[2] then 2
    else if field == ExtraFields[3] then 3
    else if field == ExtraFields[4] then 4
    else 5
  }

  /** The optional field names are pairwise different header fields, each at its own rank. */
  lemma ExtraFieldsAreDistinct()
    ensures forall p, q :: 0 <= p < q < |ExtraFields| ==> !SameName(ExtraFields[p], ExtraFields[q])
    ensures forall p :: 0 <= p < |ExtraFields| ==> FieldRank(ExtraFields[p]) == p
  {
    assert Lower(ExtraFields[0])[0] == 's';
    assert Lower(ExtraFields[1])[5] == 'i';
    assert Lower(ExtraFields[2])[5] == 'u';
    assert Lower(ExtraFields[3])[5] == 'h';
    assert Lower(ExtraFields[4])[5] == 's';
    assert |ExtraFields[1]| == 7 && |ExtraFields[3]| == 9 && |ExtraFields[4]| == 14;
  }

  /** The tail get_extra_headers adds for the field at rank `m`, given its hook's value. */
  function ExtraTail(m: nat, hv: Option<string>): seq<Header>
    requires m < |ExtraFields|
  {
    match hv
    case Some(v) => [Header(ExtraFields[m], v)]
    case None => []
  }

  /** Every header is an optional field of rank below `n`, each rank above the one before. */
  predicate RankOrdered(r: seq<Header>, n: nat) {
    && (forall i :: 0 <= i < |r| ==> FieldRank(r[i].name) < n)
    && (forall i, j :: 0 <= i < j < |r| ==> FieldRank(r[i].name) < FieldRank(r[j].name))
  }

  /** Each of the first `n` optional fields is present with value `v` exactly when its hook returns `v`. */
  ghost predicate CarriesHooks(r: seq<Header>, extra: map<string, ExtraHook>, env: EnvelopeValue, group: Target, n: nat)
    requires n <= |ExtraFields|
  {
    forall p, v :: 0 <= p < n ==>
      (Header(ExtraFields[p], v) in r <==> HookValue(extra, ExtraFields[p], env, group) == Some(v))
  }

  /** Appending the field at rank `m` to headers of lower ranks keeps them in rank order. */
  lemma ExtraStepRanks(r0: seq<Header>, m: nat, hv: Option<string>)
    requires m < |ExtraFields| && RankOrdered(r0, m)
    ensures RankOrdered(r0 + ExtraTail(m, hv), m + 1)
  {
    ExtraFieldsAreDistinct();
    var r := r0 + ExtraTail(m, hv);
    assert forall i :: |r0| <= i < |r| ==> FieldRank(r[i].name) == m;
    assert forall i :: 0 <= i < |r0| ==> r[i] == r0[i];
  }

  /** Appending the field at rank `m` adds exactly its hook's value and leaves the lower fields alone. */
  lemma ExtraStepMembers(r0: seq<Header>, extra: map<string, ExtraHook>, env: EnvelopeValue, group: Target, m: nat)
    requires m < |ExtraFields| && RankOrdered(r0, m) && CarriesHooks(r0, extra, env, group, m)
    ensures CarriesHooks(r0 + ExtraTail(m, HookValue(extra, ExtraFields[m], env, group)), extra, env, group, m + 1)
  {
    ExtraFieldsAreDistinct();
    forall v, i | 0 <= i < |r0| ensures r0[i] != Header(ExtraFields[m], v) {
      assert FieldRank(r0[i].name) < m;
    }
  }

  lemma {:induction false} ExtraHeadersUpToSpec(extra: map<string, ExtraHook>, env: EnvelopeValue, group: Target, n: nat)
    requires n <= |ExtraFields|
    ensures RankOrdered(ExtraHeadersUpTo(extra, env, group, n), n)
    ensures CarriesHooks(ExtraHeadersUpTo(extra, env, group, n), extra, env, group, n)
    decreases n
  {
    if n > 0 {
      ExtraHeadersUpToSpec(extra, env, group, n - 1);
      var r0 := ExtraHeadersUpTo(extra, env, group, n - 1);
      var hv := HookValue(extra, ExtraFields[n - 1], env, group);
      assert ExtraHeadersUpTo(extra, env, group, n) == r0 + ExtraTail(n - 1, hv);
      ExtraStepRanks(r0, n - 1, hv);
      ExtraStepMembers(r0, extra, env, group, n - 1);
    }
  }

  /**
   * get_extra_headers yields each optional field at most once, in the
   * fixed order Sender, List-Id, List-Unsubscribe, List-Help,
   * List-Subscribe, and yields a field exactly when its hook exists and
   * returns something other than `None`, paired with that value.
   */
  lemma ExtraHeadersSpec(extra: map<string, ExtraHook>, env: EnvelopeValue, group: Target)
    ensures var r := ExtraHeaders(extra, env, group);
      && (forall i :: 0 <= i < |r| ==> r[i].name in ExtraFields)
      && (forall i, j :: 0 <= i < j < |r| ==> FieldRank(r[i].name) < FieldRank(r[j].name))
      && (forall f, v :: f in ExtraFields ==> (Header(f, v) in r <==> HookValue(extra, f, env, group) == Some(v)))
  {
    ExtraHeadersUpToSpec(extra, env, group, |ExtraFields|);
    var r := ExtraHeaders(extra, env, group);
    assert r == ExtraHeadersUpTo(extra, env, group, |ExtraFields|);
    forall i | 0 <= i < |r| ensures r[i].name in ExtraFields {
      assert ExtraFields[FieldRank(r[i].name)] == r[i].name;
    }
    forall f, v | f in ExtraFields ensures Header(f, v) in r <==> HookValue(extra, f, env, group) == Some(v) {
      var p :| 0 <= p < |ExtraFields| && ExtraFields[p] == f;
    }
  }

  /** `set_unique_header` applied to each pair in turn. */
  function SetAllUnique(hs: seq<Header>, extras: seq<Header>): seq<Header> {
    if extras == [] then hs
    else
      var last := extras[|extras| - 1];
      ReplaceOrAppend(SetAllUnique(hs, extras[..|extras| - 1]), last.name, last.value)
  }

  lemma SetAllUniqueStep(hs: seq<Header>, extras: seq<Header>, i: int)
    requires 0 <= i < |extras|
    ensures SetAllUnique(hs, extras[..i + 1]) == ReplaceOrAppend(SetAllUnique(hs, extras[..i]), extras[i].name, extras[i].value)
  {
    assert extras[..i + 1][..i] == extras[..i];
  }

  /**
   * After `_add_extra_headers` every pair's field reads back its value with
   * get_unique_header, provided the fields are pairwise different.
   */
  lemma {:induction false} SetAllUniqueReadsBack(hs: seq<Header>, extras: seq<Header>, k: nat)
    requires forall i, j :: 0 <= i < j < |extras| ==> !SameName(extras[i].name, extras[j].name)
    requires k < |extras|
    ensures UniqueValue(SetAllUnique(hs, extras), extras[k].name) == Some(extras[k].value)
    decreases |extras|
  {
    var init, last := extras[..|extras| - 1], extras[|extras| - 1];
    if k < |extras| - 1 {
      SetAllUniqueReadsBack(hs, init, k);
      assert !SameName(extras[k].name, last.name);
      assert !SameName(last.name, extras[k].name);
      ReplaceOrAppendKeepsOthers(SetAllUnique(hs, init), last.name, last.value, extras[k].name);
    }
  }

  /** `_add_extra_headers` leaves every other field's values alone. */
  lemma {:induction false} SetAllUniqueKeepsOthers(hs: seq<Header>, extras: seq<Header>, other: string)
    requires forall i :: 0 <= i < |extras| ==> !SameName(extras[i].name, other)
    ensures AllValues(SetAllUnique(hs, extras), other) == AllValues(hs, other)
    decreases |extras|
  {
    if extras != [] {
      var init, last := extras[..|extras| - 1], extras[|extras| - 1];
      SetAllUniqueKeepsOthers(hs, init, other);
      ReplaceOrAppendKeepsOthers(SetAllUnique(hs, init), last.name, last.value, other);
    }
  }

  /** The extra headers never name the same field twice. */
  lemma ExtraHeadersDistinct(extra: map<string, ExtraHook>, env: EnvelopeValue, group: Target)
    ensures var r := ExtraHeaders(extra, env, group);
      forall i, j :: 0 <= i < j < |r| ==> !SameName(r[i].name, r[j].name)
  {
    ExtraHeadersSpec(extra, env, group);
    ExtraFieldsAreDistinct();
  }

  // ---------------------------------------------------------------------
  // handle_envelope

  /** `[r for r in recipients if r]` */
  function Truthies(ts: seq<Target>): (r: seq<Target>)
    ensures forall t :: t in r <==> t in ts && Truthy(t)
  {
    if ts == [] then []
    else (if Truthy(ts[0]) then [ts[0]] else []) + Truthies(ts[1..])
  }

  /** `all(isinstance(r, str) for r in recipients)` */
  predicate AllAddresses(ts: seq<Target>) {
    forall t :: t in ts ==> t.Addr?
  }

  function AddressSet(ts: seq<Target>): set<string> {
    set t | t in ts && t.Addr? :: t.address
  }

  /** `sorted(set(...))` on strings. */
  function SortedAddresses(s: set<string>): (r: seq<string>)
    ensures StrictlySorted(r, StrLess) && Elements(r) == s
  {
    StrLessIsStrictTotalOrder();
    SortedSet(s, StrLess)
  }

  /** The envelope after translate_subject has returned `None` or a new subject. */
  function Retitled(h: Hooks, env: EnvelopeValue): EnvelopeValue {
    match h.translateSubject(env)
    case Returns(Some(s)) =>
      EnvelopeValue(MessageValue(ReplaceOrAppend(env.message.headers, SubjectField, s), env.message.body),
                    env.mailfrom, env.rcpttos)
    case _ => env
  }

  /** The envelope after the Received line (if any) is added. */
  function WithReceived(env: EnvelopeValue, received: Option<string>): EnvelopeValue {
    match received
    case None => env
    case Some(v) =>
      EnvelopeValue(MessageValue([Header(ReceivedField, v)] + env.message.headers, env.message.body),
                    env.mailfrom, env.rcpttos)
  }

  /** The single delivery of the flat path, or the exception of get_envelope_mailfrom or get_envelope_received. */
  function FlatDelivery(h: Hooks, env: EnvelopeValue, peer: Peer, ts: seq<Target>): Call<Delivery> {
    match h.mailfrom(env, None)
    case Throws => Throws
    case Returns(sender) =>
      match h.received(env, peer, None)
      case Throws => Throws
      case Returns(received) =>
        Returns(Delivery(WithReceived(env, received).message, SortedAddresses(AddressSet(ts)), sender))
  }

  /** The addresses get_group_recipients gives for `g`; none when it raises. */
  function Members(h: Hooks, g: Target): set<string> {
    match h.groupRecipients(g)
    case Returns(m) => Elements(m)
    case Throws => {}
  }

  /** Whether get_envelope_mailfrom, get_envelope_received and get_group_recipients all return for `g`. */
  predicate GroupReady(h: Hooks, env: EnvelopeValue, peer: Peer, g: Target) {
    && h.mailfrom(env, Some(g)).Returns?
    && h.received(env, peer, Some(g)).Returns?
    && h.groupRecipients(g).Returns?
  }

  /**
   * One iteration of the grouped loop on a fresh copy of the envelope, up
   * to the call of `deliver`: the delivery to make; `None` when every
   * recipient of the group has been sent to already; or the exception of
   * one of the methods the iteration calls.
   */
  function GroupDelivery(h: Hooks, env: EnvelopeValue, peer: Peer, g: Target, sent: set<string>): (r: Call<Option<Delivery>>)
    ensures r.Returns? ==> GroupReady(h, env, peer, g)
    ensures r == Returns(None) <==> GroupReady(h, env, peer, g) && Members(h, g) <= sent
    ensures r.Returns? && r.value.Some? ==>
      && Elements(r.value.value.recipients) == Members(h, g) - sent
      && r.value.value.recipients != [] && StrictlySorted(r.value.value.recipients, StrLess)
      && r.value.value.sender == h.mailfrom(env, Some(g)).value
  {
    match h.mailfrom(env, Some(g))
    case Throws => Throws
    case Returns(sender) =>
      match h.received(env, peer, Some(g))
      case Throws => Throws
      case Returns(received) =>
        match h.groupRecipients(g)
        case Throws => Throws
        case Returns(members) => GroupSend(h, WithReceived(env, received), g, sender, Elements(members), sent)
  }

  /**
   * The rest of an iteration once the copy is stamped: nothing when no
   * member is new; otherwise the copy with the group's extra headers, for
   * the new members, or the exception of a get_*_header hook.
   */
  function GroupSend(h: Hooks, stamped: EnvelopeValue, g: Target, sender: string, members: set<string>, sent: set<string>)
    : (r: Call<Option<Delivery>>)
    ensures r == Returns(None) <==> members <= sent
    ensures r.Returns? && r.value.Some? ==>
      && Elements(r.value.value.recipients) == members - sent
      && r.value.value.recipients != [] && StrictlySorted(r.value.value.recipients, StrLess)
      && r.value.value.sender == sender
  {
    var news := members - sent;
    assert news == {} <==> members <= sent by {
      if news == {} {
        forall x | x in members ensures x in sent {
          assert x !in news;
        }
      }
    }
    if news == {} then Returns(None)
    else
      match ExtraHeadersCall(h.extra, stamped, g)
      case Throws => Throws
      case Returns(extras) =>
        var message := MessageValue(SetAllUnique(stamped.message.headers, extras), stamped.message.body);
        Returns(Some(Delivery(message, SortedAddresses(news), sender)))
  }

  /** The state of the grouped loop: `already_sent`, the deliveries made, and the exception that ended it. */
  datatype Plan = Plan(sent: set<string>, deliveries: seq<Delivery>, stop: Option<Failure>)

  /** `already_sent` after an iteration with outcome `r`. */
  function SentAfter(r: Call<Option<Delivery>>, sent: set<string>): set<string> {
    if r.Returns? && r.value.Some? then sent + Elements(r.value.value.recipients) else sent
  }

  /** The delivery, if any, that an iteration with outcome `r` makes and the relay accepts. */
  function AcceptedAfter(h: Hooks, r: Call<Option<Delivery>>): seq<Delivery> {
    if r.Returns? && r.value.Some? && h.relayAccepts(r.value.value) then [r.value.value] else []
  }

  /** The exception an iteration with outcome `r` raises: a method's, or the relay's refusal. */
  function StopAfter(h: Hooks, r: Call<Option<Delivery>>): Option<Failure> {
    match r
    case Throws => Some(OtherError)
    case Returns(None) => None
    case Returns(Some(d)) => if h.relayAccepts(d) then None else Some(DeliveryError)
  }

  /** One iteration of the grouped loop, for group `g`; nothing happens after an exception. */
  function PlanStep(h: Hooks, env: EnvelopeValue, peer: Peer, p: Plan, g: Target): Plan {
    if p.stop.Some? then p
    else
      var r := GroupDelivery(h, env, peer, g, p.sent);
      Plan(SentAfter(r, p.sent), p.deliveries + AcceptedAfter(h, r), StopAfter(h, r))
  }

  /** The grouped loop over `gs`. */
  function PlanGroups(h: Hooks, env: EnvelopeValue, peer: Peer, gs: seq<Target>): Plan {
    if gs == [] then Plan({}, [], None)
    else PlanStep(h, env, peer, PlanGroups(h, env, peer, gs[..|gs| - 1]), gs[|gs| - 1])
  }

  /** The addresses of all deliveries. */
  function Delivered(ds: seq<Delivery>): set<string> {
    if ds == [] then {} else Delivered(ds[..|ds| - 1]) + Elements(ds[|ds| - 1].recipients)
  }

  /** The recipients of all groups. */
  function GroupMembers(h: Hooks, gs: seq<Target>): set<string> {
    if gs == [] then {} else GroupMembers(h, gs[..|gs| - 1]) + Members(h, gs[|gs| - 1])
  }

  lemma {:induction false} DeliveredAppend(ds: seq<Delivery>, d: Delivery)
    ensures Delivered(ds + [d]) == Delivered(ds) + Elements(d.recipients)
  {
    assert (ds + [d])[..|ds|] == ds;
  }

  lemma {:induction false} DeliveredMember(ds: seq<Delivery>, i: nat)
    requires i < |ds|
    ensures Elements(ds[i].recipients) <= Delivered(ds)
    decreases |ds|
  {
    if i < |ds| - 1 {
      DeliveredMember(ds[..|ds| - 1], i);
    }
  }

  /** Every list is non-empty and sorted without duplicates. */
  predicate SortedLists(ds: seq<Delivery>) {
    forall i :: 0 <= i < |ds| ==> ds[i].recipients != [] && StrictlySorted(ds[i].recipients, StrLess)
  }

  /** No address is in two lists. */
  predicate DisjointLists(ds: seq<Delivery>) {
    forall i, j :: 0 <= i < j < |ds| ==> Elements(ds[i].recipients) !! Elements(ds[j].recipients)
  }

  lemma PlanStepSorted(h: Hooks, env: EnvelopeValue, peer: Peer, p: Plan, g: Target)
    requires SortedLists(p.deliveries)
    ensures SortedLists(PlanStep(h, env, peer, p, g).deliveries)
  {
    var r := GroupDelivery(h, env, peer, g, p.sent);
    if p.stop.None? {
      if AcceptedAfter(h, r) == [] {
        assert p.deliveries + [] == p.deliveries;
      } else {
        SortedListsSnoc(p.deliveries, r.value.value);
      }
    }
  }

  lemma SortedListsSnoc(ds: seq<Delivery>, d: Delivery)
    requires SortedLists(ds) && d.recipients != [] && StrictlySorted(d.recipients, StrLess)
    ensures SortedLists(ds + [d])
  {
    assert forall i :: 0 <= i < |ds| ==> (ds + [d])[i] == ds[i];
  }

  /** Every list the grouped loop delivers to is non-empty and sorted without duplicates. */
  lemma {:induction false} PlanGroupsSorted(h: Hooks, env: EnvelopeValue, peer: Peer, gs: seq<Target>)
    ensures SortedLists(PlanGroups(h, env, peer, gs).deliveries)
    decreases |gs|
  {
    if gs != [] {
      PlanGroupsSorted(h, env, peer, gs[..|gs| - 1]);
      PlanStepSorted(h, env, peer, PlanGroups(h, env, peer, gs[..|gs| - 1]), gs[|gs| - 1]);
    }
  }

  lemma PlanStepSent(h: Hooks, env: EnvelopeValue, peer: Peer, p: Plan, g: Target)
    requires Delivered(p.deliveries) <= p.sent
    ensures var q := PlanStep(h, env, peer, p, g);
      && Delivered(q.deliveries) <= q.sent
      && (q.stop.None? ==> q.sent - Delivered(q.deliveries) == p.sent - Delivered(p.deliveries))
      && (q.stop.None? ==> q.sent == p.sent + Members(h, g))
      && (q.stop.None? ==> p.stop.None?)
  {
    if p.stop.None? {
      OutcomeSent(h, GroupDelivery(h, env, peer, g, p.sent), p.sent, p.deliveries, Members(h, g));
    }
  }

  /** What one iteration's outcome does to `already_sent` and the deliveries, given how it chose its recipients. */
  lemma OutcomeSent(h: Hooks, r: Call<Option<Delivery>>, sent: set<string>, ds: seq<Delivery>, members: set<string>)
    requires Delivered(ds) <= sent
    requires r == Returns(None) ==> members <= sent
    requires r.Returns? && r.value.Some? ==> Elements(r.value.value.recipients) == members - sent
    ensures var sent', ds' := SentAfter(r, sent), ds + AcceptedAfter(h, r);
      && Delivered(ds') <= sent'
      && (StopAfter(h, r).None? ==> sent' - Delivered(ds') == sent - Delivered(ds))
      && (StopAfter(h, r).None? ==> sent' == sent + members)
  {
    if r.Returns? && r.value.Some? {
      var d := r.value.value;
      if h.relayAccepts(d) {
        DeliveredAppend(ds, d);
        var news := Elements(d.recipients);
        assert (sent + news) - (Delivered(ds) + news) == sent - Delivered(ds);
      }
    } else {
      assert ds + [] == ds;
    }
  }

  /**
   * `already_sent` is what was handed to the relay, plus the list of a
   * refused delivery that stops the loop; when no exception ended the
   * loop, it is every member of every group.
   */
  lemma {:induction false} PlanGroupsSent(h: Hooks, env: EnvelopeValue, peer: Peer, gs: seq<Target>)
    ensures var p := PlanGroups(h, env, peer, gs);
      && Delivered(p.deliveries) <= p.sent
      && (p.stop.None? ==> p.sent == Delivered(p.deliveries) == GroupMembers(h, gs))
    decreases |gs|
  {
    if gs != [] {
      PlanGroupsSent(h, env, peer, gs[..|gs| - 1]);
      PlanStepSent(h, env, peer, PlanGroups(h, env, peer, gs[..|gs| - 1]), gs[|gs| - 1]);
    }
  }

  lemma PlanStepDisjoint(h: Hooks, env: EnvelopeValue, peer: Peer, p: Plan, g: Target)
    requires Delivered(p.deliveries) <= p.sent
    requires DisjointLists(p.deliveries)
    ensures DisjointLists(PlanStep(h, env, peer, p, g).deliveries)
  {
    if p.stop.None? {
      var r := GroupDelivery(h, env, peer, g, p.sent);
      if AcceptedAfter(h, r) == [] {
        assert p.deliveries + [] == p.deliveries;
      } else {
        var ds := p.deliveries + [r.value.value];
        forall i, j | 0 <= i < j < |ds| ensures Elements(ds[i].recipients) !! Elements(ds[j].recipients) {
          if j == |ds| - 1 {
            DeliveredMember(p.deliveries, i);
          } else {
            assert ds[i] == p.deliveries[i] && ds[j] == p.deliveries[j];
          }
        }
      }
    }
  }

  /**
   * Grouped delivery never sends to an address twice: the lists handed to
   * the relay are pairwise disjoint.
   */
  lemma {:induction false} PlanGroupsDisjoint(h: Hooks, env: EnvelopeValue, peer: Peer, gs: seq<Target>)
    ensures DisjointLists(PlanGroups(h, env, peer, gs).deliveries)
    decreases |gs|
  {
    if gs != [] {
      PlanGroupsDisjoint(h, env, peer, gs[..|gs| - 1]);
      PlanGroupsSent(h, env, peer, gs[..|gs| - 1]);
      PlanStepDisjoint(h, env, peer, PlanGroups(h, env, peer, gs[..|gs| - 1]), gs[|gs| - 1]);
    }
  }

  /**
   * `already_sent` only grows and the deliveries made so far are never
   * taken back: every prefix of the groups plans a prefix of the
   * deliveries and a subset of the addresses; once an exception ends the
   * loop, nothing further happens.
   */
  lemma {:induction false} PlanGroupsGrows(h: Hooks, env: EnvelopeValue, peer: Peer, gs: seq<Target>, n: nat)
    requires n <= |gs|
    ensures var p, q := PlanGroups(h, env, peer, gs[..n]), PlanGroups(h, env, peer, gs);
      && p.sent <= q.sent
      && p.deliveries <= q.deliveries
      && (p.stop.Some? ==> q == p)
    decreases |gs|
  {
    if n == |gs| {
      assert gs[..n] == gs;
    } else {
      var init := gs[..|gs| - 1];
      assert init[..n] == gs[..n];
      PlanGroupsGrows(h, env, peer, init, n);
    }
  }

  /** What handle_envelope returns, which deliveries it makes, and the message it leaves behind. */
  datatype Handled = Handled(ret: Return, sent: seq<Delivery>, message: MessageValue)

  function HandleEnvelopeOf(h: Hooks, env: EnvelopeValue, peer: Peer): Handled {
    var rs := RecipientsOf(env.message.headers, h.parseAddresses, env.rcpttos);
    HandleRecipients(h, env, peer, EnvelopeRecipientsOf(rs, h.translate))
  }

  /** handle_envelope once get_envelope_recipients has given `recipients`. */
  function HandleRecipients(h: Hooks, env: EnvelopeValue, peer: Peer, recipients: Result<seq<Target>, Failure>): Handled {
    match recipients
    case Err(InvalidRecipientError(args)) =>
      if h.handleInvalidRecipient(env, args).Returns? then Handled(Status(MailboxUnavailable), [], env.message)
      else Handled(Raised(OtherError), [], env.message)
    case Err(e) => Handled(Raised(e), [], env.message)
    case Ok(ts) =>
      if h.translateSubject(env).Throws? then Handled(Raised(OtherError), [], env.message)
      else Forward(h, Retitled(h, env), peer, Truthies(ts))
  }

  /** The delivery part of handle_envelope, for the truthy targets and the retitled envelope. */
  function Forward(h: Hooks, env: EnvelopeValue, peer: Peer, targets: seq<Target>): Handled {
    if AllAddresses(targets) then
      match FlatDelivery(h, env, peer, targets)
      case Throws => Handled(Raised(OtherError), [], env.message)
      case Returns(d) =>
        if h.relayAccepts(d) then Handled(NoStatus, [d], d.message)
        else Handled(Raised(DeliveryError), [], d.message)
    else
      var p := PlanGroups(h, env, peer, targets);
      Handled(if p.stop.Some? then Raised(p.stop.value) else NoStatus, p.deliveries, env.message)
  }

  /**
   * The outcomes of handle_envelope: a status line only for an invalid
   * recipient whose handle_invalid_recipient returns, and then it is 550;
   * nothing is delivered when the recipients cannot be translated; when
   * every truthy target is a string, at most one delivery, to the sorted
   * distinct addresses.
   */
  lemma HandleEnvelopeOutcomes(h: Hooks, env: EnvelopeValue, peer: Peer)
    ensures var r := HandleEnvelopeOf(h, env, peer);
      var ts := EnvelopeRecipientsOf(RecipientsOf(env.message.headers, h.parseAddresses, env.rcpttos), h.translate);
      && (r.ret.Status? <==>
            ts.Err? && ts.error.InvalidRecipientError? && h.handleInvalidRecipient(env, ts.error.args).Returns?)
      && (r.ret.Status? ==> r.ret.line == MailboxUnavailable)
      && (ts.Err? ==> r.sent == [])
      && (ts.Ok? && AllAddresses(Truthies(ts.value)) ==>
            && |r.sent| <= 1
            && (r.ret.NoStatus? ==> |r.sent| == 1)
            && forall d :: d in r.sent ==>
                 && StrictlySorted(d.recipients, StrLess)
                 && forall a :: a in d.recipients <==> Addr(a) in ts.value && a != "")
  {
    var ts := EnvelopeRecipientsOf(RecipientsOf(env.message.headers, h.parseAddresses, env.rcpttos), h.translate);
    assert HandleEnvelopeOf(h, env, peer) == HandleRecipients(h, env, peer, ts);
    if ts.Ok? && h.translateSubject(env).Returns? {
      var targets := Truthies(ts.value);
      ForwardHasNoStatus(h, Retitled(h, env), peer, targets);
      if AllAddresses(targets) {
        FlatForward(h, Retitled(h, env), peer, targets);
        TruthyAddresses(ts.value);
        SortedAddressesMembers(AddressSet(targets));
      }
    }
  }

  /** Forwarding never answers with a status line. */
  lemma ForwardHasNoStatus(h: Hooks, env: EnvelopeValue, peer: Peer, targets: seq<Target>)
    ensures !Forward(h, env, peer, targets).ret.Status?
  {
  }

  /** The flat path makes at most one delivery, to the sorted distinct addresses, and exactly one when it returns `None`. */
  lemma FlatForward(h: Hooks, env: EnvelopeValue, peer: Peer, targets: seq<Target>)
    requires AllAddresses(targets)
    ensures var r := Forward(h, env, peer, targets);
      && |r.sent| <= 1
      && (r.ret.NoStatus? ==> |r.sent| == 1)
      && forall d :: d in r.sent ==> d.recipients == SortedAddresses(AddressSet(targets))
  {
  }

  /** The sorted list of a set holds exactly its elements, in strictly ascending order. */
  lemma SortedAddressesMembers(s: set<string>)
    ensures StrictlySorted(SortedAddresses(s), StrLess)
    ensures forall a :: a in SortedAddresses(s) <==> a in s
  {
    var r := SortedAddresses(s);
    forall a ensures a in r <==> a in s {
      assert a in r <==> a in Elements(r);
    }
  }

  /**
   * An exception from a method a subclass supplies ends handle_envelope
   * before anything is delivered: from handle_invalid_recipient in place
   * of the 550 reply, from translate_subject, and on the flat path from
   * get_envelope_mailfrom or get_envelope_received.
   */
  lemma HookExceptionsRaise(h: Hooks, env: EnvelopeValue, peer: Peer)
    ensures var r := HandleEnvelopeOf(h, env, peer);
      var ts := EnvelopeRecipientsOf(RecipientsOf(env.message.headers, h.parseAddresses, env.rcpttos), h.translate);
      var retitled := Retitled(h, env);
      && (ts.Err? && ts.error.InvalidRecipientError? && h.handleInvalidRecipient(env, ts.error.args).Throws? ==>
            r.ret == Raised(OtherError) && r.sent == [])
      && (ts.Ok? && h.translateSubject(env).Throws? ==>
            r.ret == Raised(OtherError) && r.sent == [] && r.message == env.message)
      && (ts.Ok? && h.translateSubject(env).Returns? && AllAddresses(Truthies(ts.value)) &&
          (h.mailfrom(retitled, None).Throws? || h.received(retitled, peer, None).Throws?) ==>
            r.ret == Raised(OtherError) && r.sent == [] && r.message == retitled.message)
  {
  }

  /**
   * On the grouped path, when get_envelope_mailfrom raises for the first
   * group, handle_envelope raises before any delivery. This is the base
   * class's case: its get_envelope_mailfrom accepts no `recipients`
   * argument, so the grouped call raises TypeError.
   */
  lemma FirstGroupRaises(h: Hooks, env: EnvelopeValue, peer: Peer, ts: seq<Target>)
    requires EnvelopeRecipientsOf(RecipientsOf(env.message.headers, h.parseAddresses, env.rcpttos), h.translate) == Ok(ts)
    requires h.translateSubject(env).Returns?
    requires !AllAddresses(Truthies(ts))
    requires h.mailfrom(Retitled(h, env), Some(Truthies(ts)[0])).Throws?
    ensures HandleEnvelopeOf(h, env, peer).ret == Raised(OtherError)
    ensures HandleEnvelopeOf(h, env, peer).sent == []
  {
    var targets := Truthies(ts);
    var retitled := Retitled(h, env);
    assert HandleEnvelopeOf(h, env, peer) == Forward(h, retitled, peer, targets);
    FirstGroupStops(h, retitled, peer, targets);
  }

  /** A first group whose get_envelope_mailfrom raises ends the grouped loop at once. */
  lemma FirstGroupStops(h: Hooks, env: EnvelopeValue, peer: Peer, gs: seq<Target>)
    requires gs != [] && h.mailfrom(env, Some(gs[0])).Throws?
    ensures PlanGroups(h, env, peer, gs) == Plan({}, [], Some(OtherError))
  {
    PlanGroupsSnoc(h, env, peer, gs, 0);
    assert gs[..0] == [];
    PlanGroupsGrows(h, env, peer, gs, 1);
  }

  /** The addresses of the truthy targets are the non-empty strings among them. */
  lemma TruthyAddresses(ts: seq<Target>)
    ensures forall a :: a in AddressSet(Truthies(ts)) <==> Addr(a) in ts && a != ""
  {
    forall a ensures a in AddressSet(Truthies(ts)) <==> Addr(a) in ts && a != "" {
      if a in AddressSet(Truthies(ts)) {
        var t :| t in Truthies(ts) && t.Addr? && t.address == a;
      }
    }
  }

  /** The reply process_message computes: a status line, or `None` when handle_envelope returned nothing. */
  datatype Processed = Processed(status: Option<string>, sent: seq<Delivery>)

  /** `Message(data)`: an empty payload makes an empty multipart message. */
  const EmptyMultipart := MessageValue([Header("Content-Type", "multipart/mixed"), Header("MIME-Version", "1.0")], "")

  function MessageOf(h: Hooks, data: seq<bv8>): Option<MessageValue> {
    if data == [] then Some(EmptyMultipart) else h.parseMessage(data)
  }

  function ProcessMessageOf(h: Hooks, peer: Peer, mailfrom: string, rcpttos: seq<string>, data: seq<bv8>): Processed {
    match MessageOf(h, data)
    case None => Processed(Some(ProcessingError), [])
    case Some(m) =>
      var r := HandleEnvelopeOf(h, EnvelopeValue(m, mailfrom, rcpttos), peer);
      match r.ret
      case Status(line) => Processed(Some(line), r.sent)
      case NoStatus => Processed(None, r.sent)
      case Raised(_) => Processed(Some(ProcessingError), r.sent)
  }

  /** `'250 OK' if status is None else status` */
  function ReplyOf(h: Hooks, peer: Peer, mailfrom: string, rcpttos: seq<string>, data: seq<bv8>): string {
    var p := ProcessMessageOf(h, peer, mailfrom, rcpttos, data);
    if p.status.None? then Accepted else p.status.value
  }

  /**
   * The SMTP reply to a message is 550 for an invalid recipient, before
   * any delivery; 451 when the message cannot be parsed or handling
   * raised (a translation, a subclass's method or the relay), asking the
   * client to retry; and 250 otherwise.
   */
  lemma ReplyCodes(h: Hooks, peer: Peer, mailfrom: string, rcpttos: seq<string>, data: seq<bv8>)
    ensures var reply := ReplyOf(h, peer, mailfrom, rcpttos, data);
      && reply in {Accepted, MailboxUnavailable, ProcessingError}
      && (MessageOf(h, data).None? ==> reply == ProcessingError)
      && (reply == MailboxUnavailable ==> ProcessMessageOf(h, peer, mailfrom, rcpttos, data).sent == [])
      && (MessageOf(h, data).Some? &&
          HandleEnvelopeOf(h, EnvelopeValue(MessageOf(h, data).value, mailfrom, rcpttos), peer).ret.Raised? ==>
            reply == ProcessingError)
      && (reply == Accepted <==>
            MessageOf(h, data).Some? &&
            HandleEnvelopeOf(h, EnvelopeValue(MessageOf(h, data).value, mailfrom, rcpttos), peer).ret.NoStatus?)
  {
    match MessageOf(h, data)
    case None =>
    case Some(m) =>
      HandleEnvelopeOutcomes(h, EnvelopeValue(m, mailfrom, rcpttos), peer);
  }

  /** The loop of get_envelope_recipients over the triples of `recipients()`. */
  method TranslateAll(rs: seq<Recipient>, tr: string -> Translation) returns (r: Result<seq<Target>, Failure>)
    ensures r == EnvelopeRecipientsOf(rs, tr)
  {
    var invalid: seq<PyValue> := [];
    var recipients: seq<Target> := [];
    var i := 0;
    while i < |rs|
      invariant 0 <= i <= |rs|
      invariant FirstFatal(rs[..i], tr).None?
      invariant invalid == Collected(rs[..i], tr)
      invariant recipients == Concatenated(rs[..i], tr)
    {
      ScanSnoc(rs, tr, i);
      var t := TranslationOf(rs[i], tr);
      if t.Some? {
        var translated := t.value;
        if translated.ReturnsString? {
          FirstFatalPrefix(rs, tr, i + 1);
          return Err(ValueError);
        } else if translated.Raises? {
          FirstFatalPrefix(rs, tr, i + 1);
          return Err(OtherError);
        } else if translated.Rejected? {
          invalid := invalid + [Reported(translated.args)];
        } else {
          recipients := recipients + translated.targets;
        }
      }
      i := i + 1;
    }
    assert rs[..|rs|] == rs;
    if invalid != [] {
      return Err(InvalidRecipientError([List(invalid)]));
    }
    return Ok(recipients);
  }

  lemma PlanGroupsSnoc(h: Hooks, env: EnvelopeValue, peer: Peer, gs: seq<Target>, i: nat)
    requires i < |gs|
    ensures PlanGroups(h, env, peer, gs[..i + 1]) == PlanStep(h, env, peer, PlanGroups(h, env, peer, gs[..i]), gs[i])
  {
    assert gs[..i + 1][..i] == gs[..i];
  }

  /** How one iteration of the grouped loop advances the plan. */
  lemma PlanAdvance(h: Hooks, env: EnvelopeValue, peer: Peer, groups: seq<Target>, i: nat,
                    start: seq<Delivery>, before: seq<Delivery>, after: seq<Delivery>,
                    sent0: set<string>, sent: set<string>, stop: Option<Failure>)
    requires i < |groups|
    requires |start| <= |before| && before[..|start|] == start
    requires PlanGroups(h, env, peer, groups[..i]) == Plan(sent0, before[|start|..], None)
    requires var r := GroupDelivery(h, env, peer, groups[i], sent0);
      && sent == SentAfter(r, sent0)
      && stop == StopAfter(h, r)
      && after == before + AcceptedAfter(h, r)
    ensures |start| <= |after| && after[..|start|] == start
    ensures stop.None? ==> PlanGroups(h, env, peer, groups[..i + 1]) == Plan(sent, after[|start|..], None)
    ensures stop.Some? ==> PlanGroups(h, env, peer, groups) == Plan(sent, after[|start|..], stop)
  {
    PlanGroupsSnoc(h, env, peer, groups, i);
    var r := GroupDelivery(h, env, peer, groups[i], sent0);
    LogGrows(start, before, AcceptedAfter(h, r));
    if stop.Some? {
      PlanGroupsGrows(h, env, peer, groups, i + 1);
    }
  }

  lemma LogGrows<T>(start: seq<T>, before: seq<T>, added: seq<T>)
    requires |start| <= |before| && before[..|start|] == start
    ensures (before + added)[..|start|] == start
    ensures (before + added)[|start|..] == before[|start|..] + added
  {
  }

  // ---------------------------------------------------------------------
  // The forwarder object

  class Forwarder {
    const hooks: Hooks
    /** The deliveries the relay has accepted, oldest first. */
    var deliveries: seq<Delivery>

    constructor (hooks: Hooks)
      ensures this.hooks == hooks && deliveries == []
    {
      this.hooks := hooks;
      deliveries := [];
    }

    /** `deliver`: hands the message to the relay, which may refuse it. */
    method Deliver(message: Message, recipients: seq<string>, sender: string) returns (ok: bool)
      modifies this
      ensures var d := Delivery(message.Value(), recipients, sender);
        && ok == hooks.relayAccepts(d)
        && deliveries == old(deliveries) + if ok then [d] else []
    {
      var d := Delivery(message.Value(), recipients, sender);
      ok := hooks.relayAccepts(d);
      if ok {
        deliveries := deliveries + [d];
      }
    }

    /** get_envelope_recipients */
    method GetEnvelopeRecipients(envelope: Envelope) returns (r: Result<seq<Target>, Failure>)
      ensures r == EnvelopeRecipientsOf(RecipientsOf(envelope.message.headers, hooks.parseAddresses, envelope.rcpttos), hooks.translate)
    {
      var rs := envelope.Recipients(hooks.parseAddresses);
      r := TranslateAll(rs, hooks.translate);
    }

    /** get_extra_headers */
    method GetExtraHeaders(envelope: Envelope, group: Target) returns (r: Call<seq<Header>>)
      ensures r == ExtraHeadersCall(hooks.extra, envelope.Value(), group)
    {
      var headers := [];
      var n := 0;
      while n < |ExtraFields|
        invariant 0 <= n <= |ExtraFields|
        invariant headers == ExtraHeadersUpTo(hooks.extra, envelope.Value(), group, n)
        invariant !ExtraRaisesUpTo(hooks.extra, envelope.Value(), group, n)
      {
        var h := ExtraFields[n];
        var methodName := HookName(h);
        if methodName in hooks.extra {
          var value := hooks.extra[methodName](envelope.Value(), group);
          if value.Throws? {
            assert HookRaises(hooks.extra, ExtraFields[n], envelope.Value(), group);
            return Throws;
          }
          if value.value.Some? {
            headers := headers + [Header(h, value.value.value)];
          }
        }
        n := n + 1;
      }
      return Returns(headers);
    }

    /** _add_extra_headers */
    method AddExtraHeaders(envelope: Envelope, group: Target) returns (ok: bool)
      modifies envelope.message
      ensures var extras := ExtraHeadersCall(hooks.extra, old(envelope.Value()), group);
        && ok == extras.Returns?
        && envelope.message.Value()
           == if ok then MessageValue(SetAllUnique(old(envelope.message.headers), extras.value), old(envelope.message.body))
              else old(envelope.message.Value())
    {
      var call := GetExtraHeaders(envelope, group);
      if call.Throws? {
        return false;
      }
      var extras := call.value;
      var m := envelope.message;
      ghost var start := m.headers;
      var i := 0;
      while i < |extras|
        invariant 0 <= i <= |extras|
        invariant m.headers == SetAllUnique(start, extras[..i])
        invariant m.body == old(m.body)
      {
        SetAllUniqueStep(start, extras, i);
        m.SetUniqueHeader(extras[i].name, extras[i].value);
        i := i + 1;
      }
      assert extras[..|extras|] == extras;
      assert m.headers == SetAllUnique(start, extras);
      ok := true;
    }

    /** handle_envelope */
    method HandleEnvelope(envelope: Envelope, peer: Peer) returns (ret: Return)
      modifies this, envelope.message
      ensures var r := HandleEnvelopeOf(hooks, old(envelope.Value()), peer);
        && ret == r.ret
        && deliveries == old(deliveries) + r.sent
        && envelope.message.Value() == r.message
    {
      var recipients := GetEnvelopeRecipients(envelope);
      if recipients.Err? {
        if recipients.error.InvalidRecipientError? {
          var handled := hooks.handleInvalidRecipient(envelope.Value(), recipients.error.args);
          if handled.Throws? {
            return Raised(OtherError);
          }
          return Status(MailboxUnavailable);
        }
        return Raised(recipients.error);
      }
      var newSubject := hooks.translateSubject(envelope.Value());
      if newSubject.Throws? {
        return Raised(OtherError);
      }
      if newSubject.value.Some? {
        envelope.message.SetSubject(newSubject.value.value);
      }
      assert envelope.Value() == Retitled(hooks, old(envelope.Value()));
      var targets := Truthies(recipients.value);
      if AllAddresses(targets) {
        ret := DeliverFlat(envelope, peer, targets);
      } else {
        ret := DeliverGroups(envelope, peer, targets);
      }
    }

    /** The flat branch of handle_envelope: one delivery to the sorted distinct addresses. */
    method DeliverFlat(envelope: Envelope, peer: Peer, targets: seq<Target>) returns (ret: Return)
      requires AllAddresses(targets)
      modifies this, envelope.message
      ensures var r := Forward(hooks, old(envelope.Value()), peer, targets);
        && ret == r.ret
        && deliveries == old(deliveries) + r.sent
        && envelope.message.Value() == r.message
    {
      var sorted := SortedAddresses(AddressSet(targets));
      var mailfrom := hooks.mailfrom(envelope.Value(), None);
      if mailfrom.Throws? {
        return Raised(OtherError);
      }
      var received := hooks.received(envelope.Value(), peer, None);
      if received.Throws? {
        return Raised(OtherError);
      }
      if received.value.Some? {
        envelope.message.AddReceivedLine(received.value.value);
      }
      var ok := Deliver(envelope.message, sorted, mailfrom.value);
      return if ok then NoStatus else Raised(DeliveryError);
    }

    /** The grouped branch of handle_envelope, over the retitled envelope. */
    method DeliverGroups(original: Envelope, peer: Peer, groups: seq<Target>) returns (ret: Return)
      modifies this
      ensures var p := PlanGroups(hooks, original.Value(), peer, groups);
        && ret == (if p.stop.Some? then Raised(p.stop.value) else NoStatus)
        && deliveries == old(deliveries) + p.deliveries
    {
      ghost var env := original.Value();
      ghost var start := deliveries;
      var alreadySent: set<string> := {};
      var i := 0;
      while i < |groups|
        invariant 0 <= i <= |groups|
        invariant original.Value() == env
        invariant |start| <= |deliveries| && deliveries[..|start|] == start
        invariant PlanGroups(hooks, env, peer, groups[..i]) == Plan(alreadySent, deliveries[|start|..], None)
      {
        ghost var before, sentBefore := deliveries, alreadySent;
        var stop: Option<Failure>;
        alreadySent, stop := DeliverGroup(original, peer, groups[i], alreadySent);
        PlanAdvance(hooks, env, peer, groups, i, start, before, deliveries, sentBefore, alreadySent, stop);
        if stop.Some? {
          return Raised(stop.value);
        }
        i := i + 1;
      }
      assert groups[..|groups|] == groups;
      ret := NoStatus;
    }

    /** One iteration of the grouped loop: a fresh copy of the envelope for `group`. */
    method DeliverGroup(original: Envelope, peer: Peer, group: Target, alreadySent: set<string>)
      returns (sent: set<string>, stop: Option<Failure>)
      modifies this
      ensures var r := GroupDelivery(hooks, original.Value(), peer, group, alreadySent);
        && sent == SentAfter(r, alreadySent)
        && stop == StopAfter(hooks, r)
        && deliveries == old(deliveries) + AcceptedAfter(hooks, r)
    {
      ghost var env := original.Value();
      var envelope := original.Copy();
      var mailfrom := hooks.mailfrom(envelope.Value(), Some(group));
      if mailfrom.Throws? {
        return alreadySent, Some(OtherError);
      }
      var received := hooks.received(envelope.Value(), peer, Some(group));
      if received.Throws? {
        return alreadySent, Some(OtherError);
      }
      if received.value.Some? {
        envelope.message.AddReceivedLine(received.value.value);
      }
      assert envelope.Value() == WithReceived(env, received.value);
      var members := hooks.groupRecipients(group);
      if members.Throws? {
        return alreadySent, Some(OtherError);
      }
      sent, stop := SendToGroup(envelope, group, mailfrom.value, Elements(members.value), alreadySent);
    }

    /** The rest of an iteration, on the stamped copy: drop the members already sent to, add the extra headers, deliver. */
    method SendToGroup(envelope: Envelope, group: Target, sender: string, members: set<string>, alreadySent: set<string>)
      returns (sent: set<string>, stop: Option<Failure>)
      modifies this, envelope.message
      ensures var r := GroupSend(hooks, old(envelope.Value()), group, sender, members, alreadySent);
        && sent == SentAfter(r, alreadySent)
        && stop == StopAfter(hooks, r)
        && deliveries == old(deliveries) + AcceptedAfter(hooks, r)
    {
      var groupRecipients := members - alreadySent;
      if groupRecipients == {} {
        return alreadySent, None;
      }
      var sorted := SortedAddresses(groupRecipients);
      var ok := AddExtraHeaders(envelope, group);
      if !ok {
        return alreadySent, Some(OtherError);
      }
      sent := alreadySent + groupRecipients;
      ok := Deliver(envelope.message, sorted, sender);
      stop := if ok then None else Some(DeliveryError);
    }

    /** process_message: the SMTP status for one received message. */
    method ProcessMessage(peer: Peer, mailfrom: string, rcpttos: seq<string>, data: seq<bv8>) returns (status: Option<string>)
      modifies this
      ensures var p := ProcessMessageOf(hooks, peer, mailfrom, rcpttos, data);
        status == p.status && deliveries == old(deliveries) + p.sent
    {
      var parsed := MessageOf(hooks, data);
      if parsed.None? {
        return Some(ProcessingError);
      }
      var message := new Message(parsed.value);
      var envelope := new Envelope(message, mailfrom, rcpttos);
      var ret := HandleEnvelope(envelope, peer);
      match ret
      case Status(line) => status := Some(line);
      case NoStatus => status := None;
      case Raised(_) => status := Some(ProcessingError);
    }

    /** Handler.handle_DATA: the reply line sent to the SMTP client. */
    method HandleData(peer: Peer, mailfrom: string, rcpttos: seq<string>, data: seq<bv8>) returns (reply: string)
      modifies this
      ensures reply == ReplyOf(hooks, peer, mailfrom, rcpttos, data)
      ensures deliveries == old(deliveries) + ProcessMessageOf(hooks, peer, mailfrom, rcpttos, data).sent
    {
      var status := ProcessMessage(peer, mailfrom, rcpttos, data);
      reply := if status.None? then Accepted else status.value;
    }
  }
}
