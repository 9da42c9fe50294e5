/** PetsServer::onConnection and GreateDnid: the map from connection numbers to live connections. */
module Connections {
  import opened Options

  const UNSET: nat := 0xFFFF_FFFF // the number a Pet carries before it has one

  /** One look at the clock and one call of rand(). */
  datatype Draw = Draw(time: nat, rand: nat)

  /** (time << 16) | (rand % 0xFFFF), cut to a DWORD. */
  function Dnid(d: Draw): nat {
    (d.time * 0x1_0000 + d.rand % 0xFFFF) % 0x1_0000_0000
  }

  /** The low half is never 0xFFFF, so no generated number is the unset one; the high half is the clock's. */
  lemma DnidHalves(d: Draw)
    ensures Dnid(d) % 0x1_0000 == d.rand % 0xFFFF && Dnid(d) / 0x1_0000 == d.time % 0x1_0000
    ensures Dnid(d) != UNSET && Dnid(d) < 0x1_0000_0000
  {
    var low, high := d.rand % 0xFFFF, d.time % 0x1_0000;
    var carry := d.time / 0x1_0000;
    assert d.time * 0x1_0000 + low == carry * 0x1_0000_0000 + (high * 0x1_0000 + low);
    assert Dnid(d) == high * 0x1_0000 + low;
  }

  datatype Event = Up(conn: nat, draws: seq<Draw>) | Down(conn: nat)

  class Server {
    var connections: map<nat, nat> // connection number to connection
    var contexts: map<nat, nat>    // live connection to the number stored as its context

    /** The keys of `connections` are exactly the numbers of the live connections, and no two share one. */
    ghost predicate Valid()
      reads this
    {
      && (forall c :: c in contexts ==> contexts[c] in connections && connections[contexts[c]] == c)
      && (forall d :: d in connections ==> connections[d] in contexts && contexts[connections[d]] == d)
      && UNSET !in connections
    }

    constructor ()
      ensures Valid() && connections == map[] && contexts == map[]
    {
      connections, contexts := map[], map[];
    }

    /** Draws until a number is free; None stands for a loop that has not ended yet. */
    method GreateDnid(draws: seq<Draw>) returns (r: Option<nat>)
      ensures r.Some? ==> exists k :: 0 <= k < |draws| && r.value == Dnid(draws[k]) && r.value !in connections
                                      && forall j :: 0 <= j < k ==> Dnid(draws[j]) in connections
      ensures r.None? <==> forall j :: 0 <= j < |draws| ==> Dnid(draws[j]) in connections
    {
      for i := 0 to |draws|
        invariant forall j :: 0 <= j < i ==> Dnid(draws[j]) in connections
      {
        var dnid := Dnid(draws[i]);
        if dnid !in connections {
          return Some(dnid);
        }
      }
      r := None;
    }

    method OnUp(conn: nat, draws: seq<Draw>) returns (r: Option<nat>)
      requires Valid() && conn !in contexts
      modifies this
      ensures Valid()
      ensures r.Some? ==> r.value !in old(connections) && r.value != UNSET
                          && contexts == old(contexts)[conn := r.value] && connections == old(connections)[r.value := conn]
      ensures r.None? ==> contexts == old(contexts) && connections == old(connections)
                          && forall d :: d in draws ==> Dnid(d) in connections
    {
      r := GreateDnid(draws);
      if r.Some? {
        forall d: Draw { DnidHalves(d); }
        contexts := contexts[conn := r.value];
        connections := connections[r.value := conn];
      }
    }

    method OnDown(conn: nat)
      requires Valid() && conn in contexts
      modifies this
      ensures Valid()
      ensures contexts == old(contexts) - {conn} && connections == old(connections) - {old(contexts[conn])}
    {
      connections := connections - {contexts[conn]};
      contexts := contexts - {conn};
    }
  }

  /** Who is connected after a run of events: up once, until down. */
  function LiveAfter(events: seq<Event>): set<nat> {
    if events == [] then {}
    else
      var before, last := LiveAfter(events[..|events| - 1]), events[|events| - 1];
      match last
      case Up(c, _) => before + {c}
      case Down(c) => before - {c}
  }

  /** A whole run; muduo reports a connection up only when it is not live and down only when it is. Unless a search for a free number is still going on, the keys of the map are exactly the numbers
      of the live connections, one each, and none is the unset number. */
  method Serve(events: seq<Event>) returns (connections: map<nat, nat>, contexts: map<nat, nat>, stuck: Option<nat>)
    requires forall i :: 0 <= i < |events| ==> (events[i].Up? <==> events[i].conn !in LiveAfter(events[..i]))
    ensures stuck.None? ==> contexts.Keys == LiveAfter(events)
    ensures stuck.Some? ==> stuck.value < |events| && contexts.Keys == LiveAfter(events[..stuck.value])
                            && events[stuck.value].Up?
                            && forall d :: d in events[stuck.value].draws ==> Dnid(d) in connections
    ensures forall d :: d in connections <==> exists c :: c in contexts && contexts[c] == d
    ensures forall a, b :: a in contexts && b in contexts && a != b ==> contexts[a] != contexts[b]
    ensures UNSET !in connections
  {
    var server := new Server();
    stuck := None;
    var i := 0;
    while i < |events|
      invariant fresh(server) && server.Valid() && i <= |events| && stuck.None?
      invariant server.contexts.Keys == LiveAfter(events[..i])
    {
      assert events[..i + 1][..i] == events[..i];
      match events[i] {
        case Up(c, draws) =>
          var r := server.OnUp(c, draws);
          if r.None? {
            stuck := Some(i);
            break;
          }
        case Down(c) => server.OnDown(c);
      }
      i := i + 1;
    }
    assert events[..|events|] == events;
    connections, contexts := server.connections, server.contexts;
  }
}
