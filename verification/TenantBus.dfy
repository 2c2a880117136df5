/** The tenant topic decorator over the payload-encrypting one: payloads are
    sealed with their full topic as associated data, messages that do not open
    are dropped, and the tenant's head is taken off delivered topics. */
module TenantBus {
  import opened Wrappers
  import opened EventCipher
  import opened EncryptedKv
  import Framing

  datatype Message<+B> = Message(topic: string, payload: B)

  /** One item of a subscription's stream. */
  datatype Item<+B> = Arrived(message: Message<B>) | Broken(error: string)

  function Head(segment: string): string {
    "t." + segment + "."
  }

  function Full(segment: string, topic: string): string {
    Head(segment) + topic
  }

  function Strip(segment: string, topic: string): string {
    if Head(segment) <= topic then topic[|Head(segment)|..] else topic
  }

  /** What a tenant's publication puts on the broker. */
  function Publish(p: Policy, segment: string, m: Message<Bytes>, nonce: Nonce): Message<Wire> {
    Message(Full(segment, m.topic), Seal(p.cipher, nonce, m.payload, Full(segment, m.topic)))
  }

  /** The encrypting layer's filter: stream errors pass, messages that do not
      open are dropped without ending the subscription. */
  function Opened(p: Policy, items: seq<Item<Wire>>): seq<Item<Bytes>> {
    if items == [] then []
    else Opened(p, items[..|items| - 1]) + OpenItem(p, items[|items| - 1])
  }

  function OpenItem(p: Policy, item: Item<Wire>): seq<Item<Bytes>> {
    match item
    case Broken(e) => [Broken(e)]
    case Arrived(Message(topic, payload)) =>
      var pt := Served(p, topic, payload);
      if pt.Ok? then [Arrived(Message(topic, pt.value))] else []
  }

  function StripItem(segment: string, item: Item<Bytes>): Item<Bytes> {
    match item
    case Broken(_) => item
    case Arrived(m) => Arrived(m.(topic := Strip(segment, m.topic)))
  }

  /** What a tenant's subscription yields for what the broker delivers. */
  function Received(p: Policy, segment: string, items: seq<Item<Wire>>): seq<Item<Bytes>> {
    var opened' := Opened(p, items);
    seq(|opened'|, i requires 0 <= i < |opened'| => StripItem(segment, opened'[i]))
  }

  // ----- Faithful delivery -----

  /** Each publication is sealed under a nonce of its own. */
  function PublishAll(p: Policy, segment: string, ms: seq<Message<Bytes>>, nonces: seq<Nonce>): seq<Item<Wire>>
    requires |nonces| == |ms|
  {
    seq(|ms|, i requires 0 <= i < |ms| => Arrived(Publish(p, segment, ms[i], nonces[i])))
  }

  function Arrivals(ms: seq<Message<Bytes>>): seq<Item<Bytes>> {
    seq(|ms|, i requires 0 <= i < |ms| => Arrived(ms[i]))
  }

  /** Publications delivered in order are received as they were published. */
  lemma {:induction false} BusRoundTrip(p: Policy, segment: string, ms: seq<Message<Bytes>>, nonces: seq<Nonce>)
    requires |nonces| == |ms|
    ensures Received(p, segment, PublishAll(p, segment, ms, nonces)) == Arrivals(ms)
    decreases |ms|
  {
    if ms != [] {
      var n := |ms| - 1;
      BusRoundTrip(p, segment, ms[..n], nonces[..n]);
      var items := PublishAll(p, segment, ms, nonces);
      assert items[..n] == PublishAll(p, segment, ms[..n], nonces[..n]);
      assert OpenItem(p, items[n]) == [Arrived(Message(Full(segment, ms[n].topic), ms[n].payload))];
      assert Strip(segment, Full(segment, ms[n].topic)) == ms[n].topic;
      var got := Received(p, segment, items);
      assert |Opened(p, items)| == n + 1;
      forall i | 0 <= i < n ensures got[i] == Arrived(ms[i]) {
        assert Received(p, segment, items[..n])[i] == Arrivals(ms[..n])[i];
      }
    }
  }

  /** What is received for one delivered item: an error as it is; a message with
      its payload opened under its full topic, and the tenant's head off it. */
  ghost predicate Delivered(p: Policy, segment: string, item: Item<Wire>, got: Item<Bytes>) {
    match item
    case Broken(e) => got == Broken(e)
    case Arrived(Message(topic, payload)) =>
      && got.Arrived?
      && Served(p, topic, payload) == Ok(got.message.payload)
      && (if "t." + segment + "." <= topic then topic == "t." + segment + "." + got.message.topic
          else topic == got.message.topic)
  }

  lemma OneDelivered(p: Policy, segment: string, item: Item<Wire>)
    ensures OpenItem(p, item) == [] <==> item.Arrived? && Served(p, item.message.topic, item.message.payload).Err?
    ensures OpenItem(p, item) != [] ==>
              |OpenItem(p, item)| == 1 && Delivered(p, segment, item, StripItem(segment, OpenItem(p, item)[0]))
  {
  }

  /** A subscription yields its stream's errors and its openable messages, each
      once and in order, and drops the rest: `at` gives the place each had. */
  lemma {:induction false} StreamKeepsOpenable(p: Policy, segment: string, items: seq<Item<Wire>>)
    returns (at: seq<nat>)
    ensures |at| == |Received(p, segment, items)|
    ensures forall i, j :: 0 <= i < j < |at| ==> at[i] < at[j]
    ensures forall i :: 0 <= i < |at| ==>
              at[i] < |items| && Delivered(p, segment, items[at[i]], Received(p, segment, items)[i])
    ensures forall j :: 0 <= j < |items| ==>
              (j in at <==> items[j].Broken? || Served(p, items[j].message.topic, items[j].message.payload).Ok?)
    decreases |items|
  {
    if items == [] {
      at := [];
    } else {
      hide Served, OpenItem, StripItem, Delivered;
      var n := |items| - 1;
      at := StreamKeepsOpenable(p, segment, items[..n]);
      OneDelivered(p, segment, items[n]);
      assert forall i :: 0 <= i < |at| ==>
               && Received(p, segment, items)[i] == Received(p, segment, items[..n])[i]
               && items[..n][at[i]] == items[at[i]];
      assert forall j :: 0 <= j < n ==> items[..n][j] == items[j];
      if OpenItem(p, items[n]) != [] { at := at + [n]; }
    }
  }

  // ----- Authenticity against a broker without the key -----

  datatype Publication = Publication(segment: string, message: Message<Bytes>, nonce: Nonce)

  function Produced(p: Policy, pubs: set<Publication>): set<Ciphertext> {
    set x | x in pubs ::
      Sealed(p.cipher.key, x.nonce, Full(x.segment, x.message.topic), x.message.payload)
  }

  /** The broker may drop, repeat, reorder, retag and invent, but repeats only
      ciphertexts the key has produced. */
  ghost predicate CanDeliver(p: Policy, pubs: set<Publication>, items: seq<Item<Wire>>) {
    forall i :: 0 <= i < |items| && items[i].Arrived? ==> Forgeable(p, items[i].message.payload, Produced(p, pubs))
  }

  /** It hands a tenant's subscription only topics under the tenant's head. */
  ghost predicate Routed(segment: string, items: seq<Item<Wire>>) {
    forall i :: 0 <= i < |items| && items[i].Arrived? ==> Head(segment) <= items[i].message.topic
  }

  /** Neither head begins the other. */
  predicate Apart(s: string, t: string) {
    !(Head(s) <= Head(t)) && !(Head(t) <= Head(s))
  }

  /** Every other publishing tenant is apart from this one. */
  ghost predicate OthersApart(pubs: set<Publication>, segment: string) {
    forall x :: x in pubs ==> x.segment == segment || Apart(segment, x.segment)
  }

  /** Every message received was published by this tenant, as it reads. */
  ghost predicate OwnMessages(pubs: set<Publication>, segment: string, got: seq<Item<Bytes>>) {
    forall i :: 0 <= i < |got| && got[i].Arrived? ==>
      exists x :: x in pubs && x.segment == segment && x.message == got[i].message
  }

  /** Tenants with distinct dot-free segments are apart. */
  lemma DotFreeIsApart(s: string, t: string)
    requires '.' !in s && '.' !in t && s != t
    ensures Apart(s, t)
  {
    Framing.HeadsMeetIff(Head(s), Head(t));
    if !Apart(s, t) {
      var a: string, b: string :| Head(s) + a == Head(t) + b;
      assert (Head(s) + a)[2..] == s + ['.'] + a && (Head(t) + b)[2..] == t + ['.'] + b;
      Framing.FirstSplitIsUnique('.', s, a, t, b);
    }
  }

  /** Tenants apart share no full topic. */
  lemma FullDecides(s: string, a: string, t: string, b: string)
    requires (s == t || Apart(s, t)) && Full(s, a) == Full(t, b)
    ensures s == t && a == b
  {
    Framing.HeadsMeetIff(Head(s), Head(t));
    if s == t { Framing.PrefixCancels(Head(s), a, b); }
  }

  lemma OpenedWasPublished(p: Policy, pubs: set<Publication>, m: Message<Wire>) returns (x: Publication)
    requires !p.allowPlaintext && Forgeable(p, m.payload, Produced(p, pubs)) && Served(p, m.topic, m.payload).Ok?
    ensures x in pubs && Full(x.segment, x.message.topic) == m.topic
    ensures x.message.payload == Served(p, m.topic, m.payload).value
  {
    OpensOnlyItsOwnSealing(p.cipher, m.payload, m.topic, Served(p, m.topic, m.payload).value);
    x :| x in pubs && m.payload.c.value
                    == Sealed(p.cipher.key, x.nonce, Full(x.segment, x.message.topic), x.message.payload);
  }

  lemma {:induction false} ReceivedWasPublished(p: Policy, pubs: set<Publication>, segment: string,
                                                items: seq<Item<Wire>>)
    requires !p.allowPlaintext && CanDeliver(p, pubs, items) && Routed(segment, items)
    requires OthersApart(pubs, segment)
    ensures OwnMessages(pubs, segment, Received(p, segment, items))
    decreases |items|
  {
    if items != [] {
      var n := |items| - 1;
      var got, last := Received(p, segment, items), OpenItem(p, items[n]);
      ReceivedWasPublished(p, pubs, segment, items[..n]);
      forall i | 0 <= i < |got| && got[i].Arrived?
        ensures exists x :: x in pubs && x.segment == segment && x.message == got[i].message
      {
        if i < |Opened(p, items[..n])| {
          assert got[i] == Received(p, segment, items[..n])[i];
        } else {
          assert got[i] == StripItem(segment, last[0]);
          var m := items[n].message;
          var x := OpenedWasPublished(p, pubs, m);
          FullDecides(segment, Strip(segment, m.topic), x.segment, x.message.topic);
        }
      }
    }
  }

  lemma PlaintextSlips(p: Policy, segment: string) returns (items: seq<Item<Wire>>)
    requires p.allowPlaintext
    ensures CanDeliver(p, {}, items) && Routed(segment, items)
    ensures !OwnMessages({}, segment, Received(p, segment, items))
  {
    items := [Arrived(Message(Head(segment), Plain([])))];
    assert items[..0] == [] && Opened(p, items) == OpenItem(p, items[0]);
    assert Received(p, segment, items)[0].Arrived?;
  }

  /** Fail-closed delivery: while other tenants are apart, under every broker
      without the key that routes by head, a tenant receives only messages it
      published itself, under the topic and with the payload it published,
      exactly when plaintext payloads are refused. */
  lemma OwnMessagesIffFailClosed(p: Policy, segment: string)
    ensures !p.allowPlaintext <==>
            forall pubs, items :: OthersApart(pubs, segment) && CanDeliver(p, pubs, items) && Routed(segment, items) ==>
              OwnMessages(pubs, segment, Received(p, segment, items))
  {
    if p.allowPlaintext {
      var items := PlaintextSlips(p, segment);
      assert OthersApart({}, segment);
    } else {
      forall pubs, items | OthersApart(pubs, segment) && CanDeliver(p, pubs, items) && Routed(segment, items)
        ensures OwnMessages(pubs, segment, Received(p, segment, items))
      {
        ReceivedWasPublished(p, pubs, segment, items);
      }
    }
  }

  /** Of two tenants, under fail-closed delivery, one receives only its own
      messages if and only if neither head begins the other. */
  lemma OwnMessagesIffApart(p: Policy, s: string, t: string)
    requires !p.allowPlaintext && s != t
    ensures Apart(s, t) <==>
            forall pubs: set<Publication>, items ::
              (forall x :: x in pubs ==> x.segment in {s, t}) && CanDeliver(p, pubs, items) && Routed(s, items) ==>
                OwnMessages(pubs, s, Received(p, s, items))
  {
    if Apart(s, t) {
      forall pubs: set<Publication>, items
        | (forall x :: x in pubs ==> x.segment in {s, t}) && CanDeliver(p, pubs, items) && Routed(s, items)
        ensures OwnMessages(pubs, s, Received(p, s, items))
      {
        ReceivedWasPublished(p, pubs, s, items);
      }
    } else {
      Framing.HeadsMeetIff(Head(s), Head(t));
      var a: string, b: string :| Head(s) + a == Head(t) + b;
      var pubs, items := SharedTopicLeaks(p, s, a, t, b);
    }
  }

  /** Where two tenants' topics meet, one receives what the other published. */
  lemma SharedTopicLeaks(p: Policy, s: string, a: string, t: string, b: string)
    returns (pubs: set<Publication>, items: seq<Item<Wire>>)
    requires s != t && Full(s, a) == Full(t, b)
    ensures (forall x :: x in pubs ==> x.segment in {s, t}) && CanDeliver(p, pubs, items) && Routed(s, items)
    ensures !OwnMessages(pubs, s, Received(p, s, items))
  {
    var x := Publication(t, Message(b, []), seq(NONCE_BYTES, _ => 0));
    pubs, items := {x}, [Arrived(Publish(p, t, x.message, x.nonce))];
    assert items[..0] == [] && Opened(p, items) == OpenItem(p, items[0]);
    assert Sealed(p.cipher.key, x.nonce, Full(x.segment, x.message.topic), x.message.payload) in Produced(p, pubs);
    assert Received(p, s, items)[0].Arrived?;
  }

  /** The routing is needed: a message of another tenant that is not under the
      receiver's head passes unstripped, under its full name. */
  lemma MisroutedMessageIsHandedOver(p: Policy, receiver: string, sender: string, m: Message<Bytes>, nonce: Nonce)
    requires !(Head(receiver) <= Full(sender, m.topic))
    ensures Received(p, receiver, [Arrived(Publish(p, sender, m, nonce))])
         == [Arrived(Message(Full(sender, m.topic), m.payload))]
  {
    var items: seq<Item<Wire>> := [Arrived(Publish(p, sender, m, nonce))];
    assert items[..0] == [] && Opened(p, items) == OpenItem(p, items[0]);
  }
}
