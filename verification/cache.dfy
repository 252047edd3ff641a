/** The served seed list as a sequential state machine: the ticker's
    refreshes, the whole-value swap, and the read endpoint. */
module Cache {
  import opened Wrappers
  import opened Pipeline

  /** Before the first successful generation nothing is served; afterwards
      the most recently installed list is. */
  datatype CacheState = Warming | Serving(list: string)

  /** What the read endpoint answers. */
  datatype Response = Response(status: nat, contentType: string, body: string)

  const StatusOK := 200
  const ContentType := "text/plain; charset=UTF-8"

  /** One tick: a successful generation replaces the list wholesale, a
      failed one leaves it as it was. */
  function Refresh(c: CacheState, gen: Result<string, GenError>): (r: CacheState)
    requires c.Serving?
    ensures r.Serving?
    ensures gen.Failure? ==> r == c
    ensures gen.Success? ==> r.list == gen.value
  {
    match gen
    case Success(list) => Serving(list)
    case Failure(_) => c
  }

  /** The read endpoint: unreachable while warming; afterwards status 200
      with the current list verbatim as a plain-text body. */
  function Serve(c: CacheState): (r: Option<Response>)
    ensures r.Some? <==> c.Serving?
    ensures r.Some? ==> r.value.status == StatusOK && r.value.contentType == ContentType && r.value.body == c.list
  {
    match c
    case Warming => None
    case Serving(list) => Some(Response(StatusOK, ContentType, list))
  }

  /** The ticks of a run, one generation outcome each, applied in order. */
  function Run(c: CacheState, gens: seq<Result<string, GenError>>): (r: CacheState)
    requires c.Serving?
    ensures r.Serving?
    decreases |gens|
  {
    if |gens| == 0 then c else Run(Refresh(c, gens[0]), gens[1..])
  }

  /** Reference definition: the output of the latest successful generation,
      or the initial list when none succeeded. */
  function LastGood(initial: string, gens: seq<Result<string, GenError>>): string
    decreases |gens|
  {
    if |gens| == 0 then initial
    else if gens[|gens| - 1].Success? then gens[|gens| - 1].value
    else LastGood(initial, gens[..|gens| - 1])
  }

  lemma {:induction false} LastGoodCons(initial: string, g: Result<string, GenError>, gens: seq<Result<string, GenError>>)
    ensures LastGood(initial, [g] + gens) == LastGood(Refresh(Serving(initial), g).list, gens)
    decreases |gens|
  {
    var all := [g] + gens;
    if |gens| == 0 {
      assert all[..0] == [];
    } else {
      assert all[|all| - 1] == gens[|gens| - 1];
      assert all[..|all| - 1] == [g] + gens[..|gens| - 1];
      LastGoodCons(initial, g, gens[..|gens| - 1]);
    }
  }

  /** After any run the served list is the latest successful generation's
      output, or the initial list. */
  lemma {:induction false} RunServesLastGood(initial: string, gens: seq<Result<string, GenError>>)
    ensures Run(Serving(initial), gens) == Serving(LastGood(initial, gens))
    decreases |gens|
  {
    if |gens| > 0 {
      var next := Refresh(Serving(initial), gens[0]);
      RunServesLastGood(next.list, gens[1..]);
      LastGoodCons(initial, gens[0], gens[1..]);
      assert [gens[0]] + gens[1..] == gens;
    }
  }

  /** Whatever is served was committed whole: it is the initial list or the
      complete output of one successful generation. */
  lemma {:induction false} ServedWasCommitted(initial: string, gens: seq<Result<string, GenError>>)
    ensures var l := Run(Serving(initial), gens).list;
      l == initial || exists i :: 0 <= i < |gens| && gens[i] == Success(l)
  {
    RunServesLastGood(initial, gens);
    LastGoodCommitted(initial, gens);
  }

  lemma {:induction false} LastGoodCommitted(initial: string, gens: seq<Result<string, GenError>>)
    ensures var l := LastGood(initial, gens);
      l == initial || exists i :: 0 <= i < |gens| && gens[i] == Success(l)
    decreases |gens|
  {
    if |gens| > 0 && gens[|gens| - 1].Failure? {
      var front := gens[..|gens| - 1];
      LastGoodCommitted(initial, front);
      var l := LastGood(initial, front);
      if l != initial {
        var i :| 0 <= i < |front| && front[i] == Success(l);
        assert gens[i] == front[i];
      }
    }
  }

  /** Refreshes that all fail leave the served bytes exactly as they were. */
  lemma {:induction false} FailedRefreshesKeepList(initial: string, gens: seq<Result<string, GenError>>)
    requires forall i :: 0 <= i < |gens| ==> gens[i].Failure?
    ensures Run(Serving(initial), gens) == Serving(initial)
    decreases |gens|
  {
    if |gens| > 0 {
      FailedRefreshesKeepList(initial, gens[1..]);
    }
  }

  /** A run ending in a successful generation serves exactly that output,
      whatever was served before. */
  lemma SuccessReplacesWholesale(initial: string, gens: seq<Result<string, GenError>>)
    requires |gens| > 0 && gens[|gens| - 1].Success?
    ensures Run(Serving(initial), gens).list == gens[|gens| - 1].value
  {
    RunServesLastGood(initial, gens);
  }
}
