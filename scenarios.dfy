/** The client and the origin server together, and the end-to-end checks of
    the demonstration script (cache.p4app/main.py), where the server runs as
    `server.py 1=11 2=22` and a switch sits between client and server. */
module Scenarios {
  import opened Wrappers
  import opened Numerals
  import opened Protocol
  import opened OriginServer
  import opened Client

  /** The network when the origin server answers every request directly. */
  function Direct(store: Store): (string, Request) -> Response
  {
    (host: string, req: Request) => Resolve(store, req)
  }

  /** For any store and key, a client asking the origin server directly
      prints the stored value when the key is present and NOTFOUND when it
      is absent; the echo check never rejects the server's reply. */
  lemma LookupAgainstOrigin(store: Store, prog: string, host: string, k: int)
    ensures RunClient(prog, [host, ShowInt(k)], Direct(store)).sent == Some((host, Request(k)))
    ensures RunClient(prog, [host, ShowInt(k)], Direct(store)).printed
         == Success(if k in store then ShowInt(store[k]) else "NOTFOUND")
  {
    ParseShowInt(k);
  }

  /** The serve loop answers a stream in which the same request occurs at
      two positions: both replies print the line a direct lookup prints, so
      nothing served in between (including the first of the two) changed
      the answer. */
  method RepeatedLookup(store: Store, requests: seq<Request>, i: int, j: int)
    returns (first: Result<string, ClientError>, second: Result<string, ClientError>)
    requires 0 <= i < j < |requests| && requests[i] == requests[j]
    ensures first == second
    ensures first == Success(if requests[i].key in store then ShowInt(store[requests[i].key]) else "NOTFOUND")
  {
    var responses := Serve(store, requests);
    first := Render(Interpret(requests[i], responses[i]));
    second := Render(Interpret(requests[j], responses[j]));
  }

  /** The entries the demonstration installs in the switch's static table:
      key 3 with value 33. */
  function StaticTable(): map<int, int>
  {
    map[3 := 33]
  }

  /** The switch as the demonstration relies on it: a key in its static
      table is answered by the switch itself, found, with the table's value;
      any other request reaches the origin server. */
  function ThroughSwitch(table: map<int, int>, store: Store): (net: (string, Request) -> Response)
    ensures forall host: string, req: Request :: net(host, req).key == req.key
    ensures forall host: string, req: Request :: req.key in table ==> net(host, req).valid == 1 && net(host, req).value == table[req.key]
    ensures forall host: string, req: Request :: req.key !in table ==> net(host, req) == Resolve(store, req)
  {
    (host: string, req: Request) =>
      if req.key in table then Response(req.key, 1, table[req.key]) else Resolve(store, req)
  }

  /** Through the switch, a key in the static table prints the table's
      value whatever the origin holds; any other key prints what the origin
      alone would print. */
  lemma LookupThroughSwitch(table: map<int, int>, store: Store, prog: string, host: string, k: int)
    ensures k in table ==>
              RunClient(prog, [host, ShowInt(k)], ThroughSwitch(table, store)).printed == Success(ShowInt(table[k]))
    ensures k !in table ==>
              RunClient(prog, [host, ShowInt(k)], ThroughSwitch(table, store)).printed
              == RunClient(prog, [host, ShowInt(k)], Direct(store)).printed
  {
    ParseShowInt(k);
  }

  /** The demonstration's two server arguments read as (1, 11), (2, 22). */
  lemma DemoArguments()
    ensures ParseOverride("1=11") == Some((1, 11)) && ParseOverride("2=22") == Some((2, 22))
  {
    assert ShowOverride(1, 11) == "1=11";
    assert ShowOverride(2, 22) == "2=22";
    ParseShowOverride(1, 11);
    ParseShowOverride(2, 22);
  }

  /** Applying (1, 11) then (2, 22) to the initial store changes nothing. */
  lemma DemoOverlay()
    ensures Overlay(InitialStore(), [(1, 11), (2, 22)]) == map[1 := 11, 2 := 22]
  {
    var ovs: seq<(int, int)> := [(1, 11), (2, 22)];
    assert ovs[..1] == [(1, 11)] && ovs[..1][..0] == [];
    assert Overlay(InitialStore(), ovs[..1][..0]) == InitialStore();
    var once := Overlay(InitialStore(), ovs[..1]);
    assert once == InitialStore()[1 := 11];
    assert Overlay(InitialStore(), ovs) == once[2 := 22];
    assert InitialStore()[1 := 11][2 := 22] == map[1 := 11, 2 := 22];
  }

  /** `server.py 1=11 2=22` serves with exactly 1 -> 11 and 2 -> 22. */
  lemma DemoStore()
    ensures StoreFromArgs(["1=11", "2=22"]) == Some(map[1 := 11, 2 := 22])
  {
    var args := ["1=11", "2=22"];
    DemoArguments();
    var ovs := ParseAll(args).value;
    assert ParseOverride(args[0]) == Some(ovs[0]) && ParseOverride(args[1]) == Some(ovs[1]);
    assert ovs == [(1, 11), (2, 22)];
    DemoOverlay();
  }

  /** Through the demonstration's switch, with the store {1: 11, 2: 22},
      key k prints `line`. */
  lemma DemoKey(prog: string, store: Store, k: int, line: string)
    requires store == map[1 := 11, 2 := 22]
    requires (k, line) in {(1, "11"), (2, "22"), (3, "33"), (123, "NOTFOUND")}
    ensures RunClient(prog, ["10.0.0.1", ShowInt(k)], ThroughSwitch(StaticTable(), store)).printed == Success(line)
  {
    LookupThroughSwitch(StaticTable(), store, prog, "10.0.0.1", k);
    LookupAgainstOrigin(store, prog, "10.0.0.1", k);
    assert ShowInt(11) == "11" && ShowInt(22) == "22" && ShowInt(33) == "33";
  }

  /** The decimal texts of the demonstration's keys. */
  lemma DemoKeyTexts()
    ensures ShowInt(1) == "1" && ShowInt(2) == "2" && ShowInt(3) == "3" && ShowInt(123) == "123"
  {
    assert ShowNat(12) == "12";
  }

  /** The demonstration's lookups against the store {1: 11, 2: 22}. */
  lemma DemoLookupsIn(prog: string, store: Store)
    requires store == map[1 := 11, 2 := 22]
    ensures var net := ThroughSwitch(StaticTable(), store);
            && RunClient(prog, ["10.0.0.1", "1"], net).printed == Success("11")
            && RunClient(prog, ["10.0.0.1", "2"], net).printed == Success("22")
            && RunClient(prog, ["10.0.0.1", "3"], net).printed == Success("33")
            && RunClient(prog, ["10.0.0.1", "123"], net).printed == Success("NOTFOUND")
            && RunClient(prog, ["10.0.0.1", "3"], Direct(store)).printed == Success("NOTFOUND")
  {
    DemoKeyTexts();
    DemoKey(prog, store, 1, "11");
    DemoKey(prog, store, 2, "22");
    DemoKey(prog, store, 3, "33");
    DemoKey(prog, store, 123, "NOTFOUND");
    LookupAgainstOrigin(store, prog, "10.0.0.1", 3);
  }

  /** The demonstration's lookups: 1 prints 11, 2 prints 22, 123 prints
      NOTFOUND, and 3 prints 33 only thanks to the switch's table, since the
      origin server alone answers NOTFOUND for it. The store is the one
      `server.py 1=11 2=22` builds. */
  lemma DemoLookups(prog: string)
    ensures StoreFromArgs(["1=11", "2=22"]).Some?
    ensures var store := StoreFromArgs(["1=11", "2=22"]).value;
            var net := ThroughSwitch(StaticTable(), store);
            && RunClient(prog, ["10.0.0.1", "1"], net).printed == Success("11")
            && RunClient(prog, ["10.0.0.1", "2"], net).printed == Success("22")
            && RunClient(prog, ["10.0.0.1", "3"], net).printed == Success("33")
            && RunClient(prog, ["10.0.0.1", "123"], net).printed == Success("NOTFOUND")
            && RunClient(prog, ["10.0.0.1", "3"], Direct(store)).printed == Success("NOTFOUND")
  {
    DemoStore();
    DemoLookupsIn(prog, StoreFromArgs(["1=11", "2=22"]).value);
  }

  /** A reply from a different key is never printed, whatever it carries. */
  lemma MismatchNeverPrinted(prog: string, host: string, k: int, other: Response)
    requires other.key != k
    ensures RunClient(prog, [host, ShowInt(k)], (h: string, r: Request) => other).printed == Failure(KeyMismatch)
  {
    ParseShowInt(k);
  }
}
