/**
 The WebSocket server's client set as the broadcast sees it: each client
 has an identity and a `readyState`, and a broadcast sends one text to
 every client whose state is OPEN.
 */
module Clients {

  /** The four `readyState` values of a `ws` connection. */
  datatype ReadyState = Connecting | Open | Closing | Closed

  /** One entry of `wss.clients`. */
  datatype Client = Client(id: nat, state: ReadyState)

  /** One `client.send(text)` call. */
  datatype Send = Send(to: nat, text: string)

  /** `wss.clients` is a set of connection objects: no connection appears twice. */
  ghost predicate DistinctIds(clients: seq<Client>)
  {
    forall i, j :: 0 <= i < j < |clients| ==> clients[i].id != clients[j].id
  }

  /** Whether some client in the set has identity `id`. */
  ghost predicate Known(clients: seq<Client>, id: nat)
  {
    exists i :: 0 <= i < |clients| && clients[i].id == id
  }

  /** How many of `sends` go to the client `id`. */
  function SendsTo(sends: seq<Send>, id: nat): nat
  {
    if |sends| == 0 then 0 else (if sends[0].to == id then 1 else 0) + SendsTo(sends[1..], id)
  }

  /**
   `wss.clients.forEach(client => if OPEN then client.send(text))`: one
   send per OPEN client, in the set's order, all carrying the same text.
   */
  function FanOut(clients: seq<Client>, text: string): (sends: seq<Send>)
    ensures |sends| <= |clients|
    ensures forall s :: s in sends ==> s.text == text && Client(s.to, Open) in clients
    ensures forall c :: c in clients && c.state == Open ==> Send(c.id, text) in sends
  {
    if |clients| == 0 then []
    else
      var rest := FanOut(clients[1..], text);
      if clients[0].state == Open then [Send(clients[0].id, text)] + rest else rest
  }

  /** Sends that all go elsewhere contain nothing for `id`. */
  lemma {:induction false} NoneAddressed(sends: seq<Send>, id: nat)
    requires forall s :: s in sends ==> s.to != id
    ensures SendsTo(sends, id) == 0
  {
    if |sends| > 0 {
      assert sends[0] in sends;
      NoneAddressed(sends[1..], id);
    }
  }

  /** Counting sends distributes over concatenation. */
  lemma {:induction false} SendsToAppend(a: seq<Send>, b: seq<Send>, id: nat)
    ensures SendsTo(a + b, id) == SendsTo(a, id) + SendsTo(b, id)
  {
    if |a| > 0 {
      assert (a + b)[1..] == a[1..] + b;
      SendsToAppend(a[1..], b, id);
    } else {
      assert a + b == b;
    }
  }

  /**
   A broadcast reaches every OPEN client exactly once and every client in
   another state not at all.
   */
  lemma {:induction false} FanOutExactlyOnce(clients: seq<Client>, text: string, id: nat)
    requires DistinctIds(clients)
    ensures SendsTo(FanOut(clients, text), id) == (if Client(id, Open) in clients then 1 else 0)
  {
    if |clients| == 0 {
      return;
    }
    var rest := clients[1..];
    assert DistinctIds(rest) by {
      forall i, j | 0 <= i < j < |rest|
        ensures rest[i].id != rest[j].id
      {
        assert rest[i] == clients[i + 1] && rest[j] == clients[j + 1];
      }
    }
    FanOutExactlyOnce(rest, text, id);
    assert clients == [clients[0]] + rest;
    if clients[0].id == id {
      forall k | 0 <= k < |rest|
        ensures rest[k].id != id
      {
        assert rest[k] == clients[k + 1];
      }
      assert Client(id, Open) !in rest;
    }
    var head := if clients[0].state == Open then [Send(clients[0].id, text)] else [];
    assert FanOut(clients, text) == head + FanOut(rest, text);
    SendsToAppend(head, FanOut(rest, text), id);
    if |head| == 1 {
      assert SendsTo(head, id) == (if clients[0].id == id then 1 else 0) by {
        assert head[1..] == [];
      }
    }
  }

  /** The client `id` moves to `state`; every other client is left as it was. */
  function SetState(clients: seq<Client>, id: nat, state: ReadyState): (r: seq<Client>)
    ensures |r| == |clients|
    ensures forall i :: 0 <= i < |r| ==> r[i].id == clients[i].id
    ensures forall i :: 0 <= i < |r| && clients[i].id != id ==> r[i] == clients[i]
    ensures forall i :: 0 <= i < |r| && clients[i].id == id ==> r[i].state == state
  {
    seq(|clients|, i requires 0 <= i < |clients| =>
      if clients[i].id == id then Client(id, state) else clients[i])
  }
}
