/** The origin server (cache.p4app/server.py): the key/value store it builds
    from its command line, and how it answers one request. */
module OriginServer {
  import opened Wrappers
  import opened Numerals
  import opened Protocol

  type Store = map<int, int>

  /** The store every server starts from, before any argument is applied. */
  function InitialStore(): Store
  {
    map[1 := 11, 2 := 22]
  }

  /** Reads one `k=v` command-line argument: the text must split on `=` into
      exactly two parts and both must be integers; otherwise Python raises
      `ValueError`, here `None`. */
  function ParseOverride(arg: string): (kv: Option<(int, int)>)
    ensures kv.Some? ==> Count(arg, '=') == 1
  {
    var parts := Split(arg, '=');
    if |parts| != 2 then None
    else match (ParseInt(parts[0]), ParseInt(parts[1]))
      case (Some(k), Some(v)) => Some((k, v))
      case _ => None
  }

  /** The text `k=v` that the server accepts for the pair (k, v). */
  function ShowOverride(k: int, v: int): string
  {
    ShowInt(k) + "=" + ShowInt(v)
  }

  /** Every pair written as `k=v` is read back as that pair. */
  lemma ParseShowOverride(k: int, v: int)
    ensures ParseOverride(ShowOverride(k, v)) == Some((k, v))
  {
    ShowIntAvoids(k, '=');
    ShowIntAvoids(v, '=');
    SplitAfterFirst(ShowInt(k), '=', ShowInt(v));
    SplitNoSeparator(ShowInt(v), '=');
    ParseShowInt(k);
    ParseShowInt(v);
  }

  /** An argument with exactly one `=` is accepted exactly when both sides
      are integers, and then yields the two integers. */
  lemma ParseOverrideSides(a: string, b: string)
    requires '=' !in a && '=' !in b
    ensures ParseOverride(a + "=" + b)
         == if ParseInt(a).Some? && ParseInt(b).Some? then Some((ParseInt(a).value, ParseInt(b).value)) else None
  {
    SplitAfterFirst(a, '=', b);
    SplitNoSeparator(b, '=');
  }

  /** Reads every argument in order; fails when any one of them fails. */
  function ParseAll(args: seq<string>): (r: Option<seq<(int, int)>>)
    ensures r.Some? <==> forall i :: 0 <= i < |args| ==> ParseOverride(args[i]).Some?
    ensures r.Some? ==> |r.value| == |args|
    ensures r.Some? ==> forall i :: 0 <= i < |args| ==> ParseOverride(args[i]) == Some(r.value[i])
  {
    if |args| == 0 then Some([])
    else
      var init := args[..|args| - 1];
      assert forall i :: 0 <= i < |init| ==> init[i] == args[i];
      match (ParseAll(init), ParseOverride(args[|args| - 1]))
      case (Some(ovs), Some(kv)) => Some(ovs + [kv])
      case _ => None
  }

  /** The store after applying the overrides in order, each `store[k] = v`. */
  function Overlay(base: Store, ovs: seq<(int, int)>): (m: Store)
    ensures base.Keys <= m.Keys
    ensures forall j :: 0 <= j < |ovs| ==> ovs[j].0 in m
    ensures |ovs| > 0 ==> m[ovs[|ovs| - 1].0] == ovs[|ovs| - 1].1
  {
    if |ovs| == 0 then base
    else
      var kv := ovs[|ovs| - 1];
      Overlay(base, ovs[..|ovs| - 1])[kv.0 := kv.1]
  }

  /** The store the server serves with for command-line arguments `args`,
      or `None` when an argument is malformed and the server stops. */
  function StoreFromArgs(args: seq<string>): (r: Option<Store>)
    ensures r.Some? <==> forall i :: 0 <= i < |args| ==> ParseOverride(args[i]).Some?
    ensures r.Some? ==> 1 in r.value && 2 in r.value
    ensures r.Some? ==> forall i :: 0 <= i < |args| ==> ParseOverride(args[i]).value.0 in r.value
  {
    match ParseAll(args)
    case Some(ovs) =>
      assert forall i :: 0 <= i < |args| ==> ParseOverride(args[i]).value.0 == ovs[i].0;
      Some(Overlay(InitialStore(), ovs))
    case None => None
  }

  /** Builds the store as the server does: start from the initial store and
      assign each argument's pair in turn. */
  method BuildStore(args: seq<string>) returns (r: Option<Store>)
    ensures r == StoreFromArgs(args)
  {
    var store := InitialStore();
    for i := 0 to |args|
      invariant ParseAll(args[..i]).Some?
      invariant store == Overlay(InitialStore(), ParseAll(args[..i]).value)
    {
      var kv := ParseOverride(args[i]);
      if kv.None? {
        return None;
      }
      store := store[kv.value.0 := kv.value.1];
      assert args[..i + 1][..i] == args[..i];
    }
    assert args[..|args|] == args;
    return Some(store);
  }

  /** With no arguments the store holds exactly 1 -> 11 and 2 -> 22. */
  lemma NoArgumentsStore()
    ensures StoreFromArgs([]) == Some(map[1 := 11, 2 := 22])
  {
  }

  /** The value of an override survives when no later override names the
      same key: the last write wins. */
  lemma {:induction false} OverlayLastWins(base: Store, ovs: seq<(int, int)>, i: int)
    requires 0 <= i < |ovs|
    requires forall j :: i < j < |ovs| ==> ovs[j].0 != ovs[i].0
    ensures ovs[i].0 in Overlay(base, ovs) && Overlay(base, ovs)[ovs[i].0] == ovs[i].1
  {
    if i < |ovs| - 1 {
      OverlayLastWins(base, ovs[..|ovs| - 1], i);
    }
  }

  /** A key that no override names keeps its base entry, or stays absent. */
  lemma {:induction false} OverlayUntouched(base: Store, ovs: seq<(int, int)>, k: int)
    requires forall j :: 0 <= j < |ovs| ==> ovs[j].0 != k
    ensures k in Overlay(base, ovs) <==> k in base
    ensures k in base ==> Overlay(base, ovs)[k] == base[k]
  {
    if |ovs| > 0 {
      OverlayUntouched(base, ovs[..|ovs| - 1], k);
    }
  }

  /** Overrides add or replace entries and never remove one: the keys are
      the base keys together with every overridden key. */
  lemma {:induction false} OverlayKeys(base: Store, ovs: seq<(int, int)>)
    ensures Overlay(base, ovs).Keys == base.Keys + set j | 0 <= j < |ovs| :: ovs[j].0
  {
    if |ovs| > 0 {
      var init := ovs[..|ovs| - 1];
      OverlayKeys(base, init);
      var all := set j | 0 <= j < |ovs| :: ovs[j].0;
      var before := set j | 0 <= j < |init| :: init[j].0;
      assert all == before + {ovs[|ovs| - 1].0} by {
        forall x | x in all ensures x in before + {ovs[|ovs| - 1].0} {
          var j :| 0 <= j < |ovs| && ovs[j].0 == x;
          if j < |init| { assert init[j].0 == x; }
        }
      }
    }
  }

  /** Last write wins, stated on the command line: if argument `i` reads as
      (k, v) and no later argument names `k`, the built store maps k to v. */
  lemma ArgumentLastWins(args: seq<string>, i: int, k: int, v: int)
    requires 0 <= i < |args| && ParseOverride(args[i]) == Some((k, v))
    requires forall j :: i < j < |args| ==> ParseOverride(args[j]).None? || ParseOverride(args[j]).value.0 != k
    requires StoreFromArgs(args).Some?
    ensures k in StoreFromArgs(args).value && StoreFromArgs(args).value[k] == v
  {
    var ovs := ParseAll(args).value;
    OverlayLastWins(InitialStore(), ovs, i);
  }

  /** A key that no argument names keeps its initial entry (1 -> 11,
      2 -> 22) or stays absent. */
  lemma ArgumentUntouched(args: seq<string>, k: int)
    requires StoreFromArgs(args).Some?
    requires forall j :: 0 <= j < |args| ==> ParseOverride(args[j]).None? || ParseOverride(args[j]).value.0 != k
    ensures k in StoreFromArgs(args).value <==> k in InitialStore()
    ensures k in InitialStore() ==> StoreFromArgs(args).value[k] == InitialStore()[k]
  {
    OverlayUntouched(InitialStore(), ParseAll(args).value, k);
  }

  /** One malformed argument anywhere means no store at all. */
  lemma MalformedArgumentStops(args: seq<string>, i: int)
    requires 0 <= i < |args| && ParseOverride(args[i]).None?
    ensures StoreFromArgs(args).None?
  {
  }

  /** An argument with no `=` or with more than one is rejected. */
  lemma SeparatorCountRejected(arg: string)
    requires Count(arg, '=') != 1
    ensures ParseOverride(arg).None?
  {
  }

  /** One turn of the serve loop: answer the request from the store. The
      key is echoed; a present key is answered with valid = 1 and its
      value, an absent one with valid = 0 and value 0. */
  function Resolve(store: Store, req: Request): (res: Response)
    ensures res.key == req.key
    ensures res.valid == 1 <==> req.key in store
    ensures res.valid == 0 <==> req.key !in store
    ensures res.valid == 1 ==> res.value == store[req.key]
    ensures res.valid == 0 ==> res.value == 0
  {
    if req.key in store then Response(req.key, 1, store[req.key])
    else Response(req.key, 0, 0)
  }

  /** The serve loop run over a finite stream of requests. The store is
      never written, so each answer depends on its own request alone and
      equal requests get equal answers wherever they occur in the stream. */
  method Serve(store: Store, requests: seq<Request>) returns (responses: seq<Response>)
    ensures |responses| == |requests|
    ensures forall i :: 0 <= i < |requests| ==> responses[i] == Resolve(store, requests[i])
    ensures forall i, j :: 0 <= i < |requests| && 0 <= j < |requests| && requests[i] == requests[j]
              ==> responses[i] == responses[j]
  {
    responses := [];
    for n := 0 to |requests|
      invariant |responses| == n
      invariant forall i :: 0 <= i < n ==> responses[i] == Resolve(store, requests[i])
    {
      responses := responses + [Resolve(store, requests[n])];
    }
  }
}
