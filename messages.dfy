/**
 * The header model of `emailtunnel.Message`: an ordered list of
 * (field name, value) pairs, duplicates allowed, plus an opaque body.
 * Field names are compared case-insensitively, as the `email` package does.
 */
module Messages {
  import opened Common

  datatype Header = Header(name: string, value: string)

  function LowerChar(c: char): char {
    if 'A' <= c <= 'Z' then (c as int + 32) as char else c
  }

  function Lower(s: string): (r: string)
    ensures |r| == |s|
  {
    seq(|s|, i requires 0 <= i < |s| => LowerChar(s[i]))
  }

  /** Two field names denote the same header field. */
  predicate SameName(a: string, b: string) {
    Lower(a) == Lower(b)
  }

  /** Some header of `hs` is named `key`. */
  ghost predicate HasHeader(hs: seq<Header>, key: string) {
    exists i :: 0 <= i < |hs| && SameName(hs[i].name, key)
  }

  /** The position of the first header named `key`, if any. */
  function FirstIndex(hs: seq<Header>, key: string): (r: Option<nat>)
    ensures r.None? <==> !HasHeader(hs, key)
    ensures r.Some? ==> r.value < |hs| && SameName(hs[r.value].name, key)
    ensures r.Some? ==> forall j :: 0 <= j < r.value ==> !SameName(hs[j].name, key)
  {
    if hs == [] then None
    else if SameName(hs[0].name, key) then Some(0)
    else match FirstIndex(hs[1..], key)
      case None => None
      case Some(i) => Some(i + 1)
  }

  /**
   * `get_all_headers(key)`: the values of all headers named `key`, in
   * message order; the empty list when there is none.
   */
  function AllValues(hs: seq<Header>, key: string): (r: seq<string>)
    ensures |r| <= |hs|
    ensures r == [] <==> !HasHeader(hs, key)
    ensures r != [] ==> r[0] == hs[FirstIndex(hs, key).value].value
  {
    if hs == [] then []
    else if SameName(hs[0].name, key) then [hs[0].value] + AllValues(hs[1..], key)
    else
      assert HasHeader(hs[1..], key) ==> HasHeader(hs, key) by {
        if HasHeader(hs[1..], key) {
          var i :| 0 <= i < |hs| - 1 && SameName(hs[1..][i].name, key);
          assert SameName(hs[i + 1].name, key);
        }
      }
      AllValues(hs[1..], key)
  }

  /** `get_unique_header(key)`: the first value, or `None` where Python raises `KeyError`. */
  function UniqueValue(hs: seq<Header>, key: string): (r: Option<string>)
    ensures r.None? <==> !HasHeader(hs, key)
    ensures r.Some? ==> r.value == hs[FirstIndex(hs, key).value].value
  {
    var values := AllValues(hs, key);
    if |values| == 0 then None else Some(values[0])
  }

  /**
   * `set_unique_header(key, value)`: `replace_header` rewrites the value of
   * the first header named `key` in place, keeping its spelling of the
   * name; when there is none, `KeyError` sends it to `msg[key] = value`,
   * which appends.
   */
  function ReplaceOrAppend(hs: seq<Header>, key: string, value: string): (r: seq<Header>)
    ensures HasHeader(hs, key) ==> |r| == |hs|
    ensures HasHeader(hs, key) ==>
      var i := FirstIndex(hs, key).value;
      && r[i] == Header(hs[i].name, value)
      && forall j :: 0 <= j < |hs| && j != i ==> r[j] == hs[j]
    ensures !HasHeader(hs, key) ==> r == hs + [Header(key, value)]
    ensures UniqueValue(r, key) == Some(value)
  {
    match FirstIndex(hs, key)
    case Some(i) =>
      var r := hs[i := Header(hs[i].name, value)];
      assert FirstIndex(r, key) == Some(i) by { FirstIndexUpdate(hs, key, i, value); }
      r
    case None =>
      var r := hs + [Header(key, value)];
      assert FirstIndex(r, key) == Some(|hs|) by { FirstIndexAppend(hs, key, value); }
      r
  }

  lemma {:induction false} FirstIndexUpdate(hs: seq<Header>, key: string, i: nat, value: string)
    requires FirstIndex(hs, key) == Some(i)
    ensures FirstIndex(hs[i := Header(hs[i].name, value)], key) == Some(i)
    decreases |hs|
  {
    if i > 0 {
      assert hs[i := Header(hs[i].name, value)][1..] == hs[1..][i - 1 := Header(hs[i].name, value)];
      FirstIndexUpdate(hs[1..], key, i - 1, value);
    }
  }

  lemma {:induction false} FirstIndexAppend(hs: seq<Header>, key: string, value: string)
    requires FirstIndex(hs, key) == None
    ensures FirstIndex(hs + [Header(key, value)], key) == Some(|hs|)
    decreases |hs|
  {
    if hs != [] {
      assert (hs + [Header(key, value)])[1..] == hs[1..] + [Header(key, value)];
      FirstIndexAppend(hs[1..], key, value);
    }
  }

  /**
   * `set_unique_header` leaves every other field alone: the values under
   * any other name are the same before and after.
   */
  lemma {:induction false} ReplaceOrAppendKeepsOthers(hs: seq<Header>, key: string, value: string, other: string)
    requires !SameName(key, other)
    ensures AllValues(ReplaceOrAppend(hs, key, value), other) == AllValues(hs, other)
  {
    match FirstIndex(hs, key)
    case Some(i) =>
      AllValuesUpdate(hs, other, i, value);
    case None =>
      AllValuesAppend(hs, [Header(key, value)], other);
      assert AllValues([Header(key, value)], other) == [];
      assert AllValues(hs, other) + [] == AllValues(hs, other);
  }

  lemma {:induction false} AllValuesUpdate(hs: seq<Header>, other: string, i: nat, value: string)
    requires i < |hs| && !SameName(hs[i].name, other)
    ensures AllValues(hs[i := Header(hs[i].name, value)], other) == AllValues(hs, other)
    decreases |hs|
  {
    if i > 0 {
      assert hs[i := Header(hs[i].name, value)][1..] == hs[1..][i - 1 := Header(hs[i].name, value)];
      AllValuesUpdate(hs[1..], other, i - 1, value);
    }
  }

  lemma {:induction false} AllValuesAppend(a: seq<Header>, b: seq<Header>, key: string)
    ensures AllValues(a + b, key) == AllValues(a, key) + AllValues(b, key)
    decreases |a|
  {
    if a == [] {
      assert a + b == b;
    } else {
      assert (a + b)[1..] == a[1..] + b;
      AllValuesAppend(a[1..], b, key);
    }
  }

  /** The field name of the trace header `add_received_line` inserts. */
  const ReceivedField := "Received"

  /**
   * `add_received_line`: the new `Received` value is listed before every
   * earlier one, and no other field's values change.
   */
  lemma ReceivedLineComesFirst(hs: seq<Header>, value: string, other: string)
    ensures AllValues([Header(ReceivedField, value)] + hs, ReceivedField)
         == [value] + AllValues(hs, ReceivedField)
    ensures !SameName(other, ReceivedField) ==>
      AllValues([Header(ReceivedField, value)] + hs, other) == AllValues(hs, other)
    ensures UniqueValue([Header(ReceivedField, value)] + hs, ReceivedField) == Some(value)
  {
    assert ([Header(ReceivedField, value)] + hs)[1..] == hs;
  }

  const SubjectField := "Subject"

  /** The `subject` getter: the first `Subject` value, or `''` when there is none. */
  function Subject(hs: seq<Header>): (r: string)
    ensures HasHeader(hs, SubjectField) ==> r == hs[FirstIndex(hs, SubjectField).value].value
    ensures !HasHeader(hs, SubjectField) ==> r == ""
  {
    match UniqueValue(hs, SubjectField)
    case Some(v) => v
    case None => ""
  }

  /** The `subject` setter followed by the getter gives back what was set. */
  lemma SubjectRoundTrip(hs: seq<Header>, s: string)
    ensures Subject(ReplaceOrAppend(hs, SubjectField, s)) == s
  {
  }

  /** The state of a `Message`: its header list and its body. */
  datatype MessageValue = MessageValue(headers: seq<Header>, body: string)

  /** `emailtunnel.Message`: a mutable header list and a body. */
  class Message {
    var headers: seq<Header>
    var body: string

    constructor (v: MessageValue)
      ensures headers == v.headers && body == v.body
    {
      headers := v.headers;
      body := v.body;
    }

    function Value(): MessageValue
      reads this
    {
      MessageValue(headers, body)
    }

    /** `copy.deepcopy` of the message: a fresh object with equal contents. */
    method Copy() returns (m: Message)
      ensures fresh(m) && m.Value() == Value()
    {
      m := new Message(Value());
    }

    /** `add_received_line`: rebuilds the list with the new header in front. */
    method AddReceivedLine(value: string)
      modifies this
      ensures headers == [Header(ReceivedField, value)] + old(headers)
      ensures body == old(body)
    {
      var saved := headers;
      headers := [];
      AddHeader(ReceivedField, value);
      headers := headers + saved;
    }

    /** `add_header`: `msg[key] = value` appends. */
    method AddHeader(key: string, value: string)
      modifies this
      ensures headers == old(headers) + [Header(key, value)]
      ensures body == old(body)
    {
      headers := headers + [Header(key, value)];
    }

    /** `set_unique_header`: replace the first header named `key`, or append. */
    method SetUniqueHeader(key: string, value: string)
      modifies this
      ensures headers == ReplaceOrAppend(old(headers), key, value)
      ensures body == old(body)
    {
      match FirstIndex(headers, key)
      case Some(i) =>
        headers := headers[i := Header(headers[i].name, value)];
      case None =>
        AddHeader(key, value);
    }

    /** The `subject` setter. */
    method SetSubject(s: string)
      modifies this
      ensures headers == ReplaceOrAppend(old(headers), SubjectField, s)
      ensures Subject(headers) == s
      ensures body == old(body)
    {
      SetUniqueHeader(SubjectField, s);
    }
  }
}
