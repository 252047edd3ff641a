/** One refresh cycle, `generateSeedList` over `getURLs`: list the tasks,
    select candidates, ask each for its key, collect the URLs in whatever
    order the requests finish, and build the artifact. */
module Pipeline {
  import opened Wrappers
  import opened Hex
  import opened Text
  import opened Tasks
  import opened SeedList

  /** The process configuration the cycle reads. */
  datatype Config = Config(network: string, seed: Option<seq<byte>>)

  datatype GenError = ListFailed(reason: string)

  /** What the collaborators contribute to one cycle: the task listing (or
      its error), the key request result for each candidate in candidate
      order, and the URLs in the order the channel delivered them. */
  datatype Cycle = Cycle(listing: Result<seq<Task>, string>, outcomes: seq<Option<string>>, received: seq<string>)

  /** The candidates of a successful listing. */
  function CycleCandidates(cfg: Config, step: string -> Option<IP>, c: Cycle): seq<IP>
    requires c.listing.Success?
  {
    Candidates(c.listing.value, cfg.network, step)
  }

  /** A cycle the collaborators can produce: one key result per candidate,
      and the channel delivering every successful URL exactly once, in
      some order. */
  predicate Consistent(cfg: Config, step: string -> Option<IP>, c: Cycle) {
    c.listing.Success? ==>
      && |c.outcomes| == |CycleCandidates(cfg, step, c)|
      && multiset(c.received) == multiset(Fetch(CycleCandidates(cfg, step, c), c.outcomes))
  }

  /** The selected IPs and the returned keys carry no line break. */
  predicate BreakFree(cfg: Config, step: string -> Option<IP>, c: Cycle)
    requires Consistent(cfg, step, c) && c.listing.Success?
  {
    && (forall i :: 0 <= i < |CycleCandidates(cfg, step, c)| ==> NoNewline(CycleCandidates(cfg, step, c)[i]))
    && (forall i :: 0 <= i < |c.outcomes| && c.outcomes[i].Some? ==> NoNewline(c.outcomes[i].value))
  }

  /** Break-free IPs and keys make every delivered URL break-free. */
  lemma ReceivedBreakFree(cfg: Config, step: string -> Option<IP>, c: Cycle)
    requires Consistent(cfg, step, c) && c.listing.Success? && BreakFree(cfg, step, c)
    ensures forall k :: 0 <= k < |c.received| ==> NoNewline(c.received[k])
  {
    var urls := Fetch(CycleCandidates(cfg, step, c), c.outcomes);
    FetchNoNewline(CycleCandidates(cfg, step, c), c.outcomes);
    forall k | 0 <= k < |c.received|
      ensures NoNewline(c.received[k])
    {
      assert c.received[k] in multiset(c.received);
      assert c.received[k] in urls;
    }
  }

  /** The artifact of one cycle, or the listing error. */
  function Generate(cfg: Config, step: string -> Option<IP>, sign: Signer, c: Cycle): (r: Result<string, GenError>)
    requires Consistent(cfg, step, c)
    ensures r.Failure? <==> c.listing.Failure?
    ensures r.Failure? ==> r.error == ListFailed(c.listing.error)
    ensures r.Success? ==> r.value == Build(c.received, cfg.seed, sign)
    ensures r.Success? ==> |c.received| == Successes(c.outcomes)
  {
    match c.listing
    case Failure(e) => Failure(ListFailed(e))
    case Success(_) =>
      assert |c.received| == |multiset(c.received)|;
      Success(Build(c.received, cfg.seed, sign))
  }

  /** Unsigned: the artifact's lines are the successful URLs, one each,
      in the delivered order. */
  lemma GenerateUnsigned(cfg: Config, step: string -> Option<IP>, sign: Signer, c: Cycle)
    requires Consistent(cfg, step, c) && c.listing.Success? && cfg.seed.None?
    requires BreakFree(cfg, step, c)
    ensures SplitLines(Generate(cfg, step, sign, c).value) == c.received
    ensures multiset(SplitLines(Generate(cfg, step, sign, c).value))
         == multiset(Fetch(CycleCandidates(cfg, step, c), c.outcomes))
  {
    ReceivedBreakFree(cfg, step, c);
    UnsignedLines(c.received, sign);
  }

  /** Signed: a reader recovers URL lines holding the successful URLs, one
      each, and the signature over exactly those lines. */
  lemma GenerateSigned(cfg: Config, step: string -> Option<IP>, sign: Signer, c: Cycle)
    requires Consistent(cfg, step, c) && c.listing.Success? && cfg.seed.Some?
    requires BreakFree(cfg, step, c)
    ensures var view := OpenSigned(Generate(cfg, step, sign, c).value);
      && view.Some?
      && view.value.signature == sign(cfg.seed.value, view.value.lines)
      && SplitLines(view.value.lines) == c.received
      && multiset(SplitLines(view.value.lines)) == multiset(Fetch(CycleCandidates(cfg, step, c), c.outcomes))
  {
    ReceivedBreakFree(cfg, step, c);
    OpenSignedBuild(c.received, cfg.seed.value, sign);
    SplitJoin(c.received);
  }

  /** As written, when the constant does not parse, every cycle with a
      successful listing yields an artifact with no URL lines. */
  lemma AsWrittenNoURLLines(cfg: Config, parse: string -> Option<IP>, sign: Signer, c: Cycle)
    requires Consistent(cfg, AsWritten(parse), c) && c.listing.Success?
    requires parse(CidrLiteral).None?
    ensures c.received == []
    ensures Generate(cfg, AsWritten(parse), sign, c) == Success(Build([], cfg.seed, sign))
  {
    AsWrittenNoCandidates(c.listing.value, cfg.network, parse);
    assert |multiset(c.received)| == 0;
  }

  /** Two deliveries of the same results in different orders give artifacts
      with the same URL lines, possibly reordered. */
  lemma DeliveryOrderOnlyPermutes(cfg: Config, step: string -> Option<IP>, sign: Signer, c1: Cycle, c2: Cycle)
    requires Consistent(cfg, step, c1) && Consistent(cfg, step, c2)
    requires cfg.seed.None? && c1.listing.Success? && c1.listing == c2.listing && c1.outcomes == c2.outcomes
    requires BreakFree(cfg, step, c1)
    ensures multiset(SplitLines(Generate(cfg, step, sign, c1).value))
         == multiset(SplitLines(Generate(cfg, step, sign, c2).value))
  {
    assert BreakFree(cfg, step, c2);
    GenerateUnsigned(cfg, step, sign, c1);
    GenerateUnsigned(cfg, step, sign, c2);
  }

  /** Three candidates, keys "aa" and "bb" returned, the third request
      timing out, no seed: the artifact is the two URLs. The step here is
      the corrected one, `parse` applied to the selected address; as
      written (`AsWritten`) every candidate is the same value, so three
      distinct candidates cannot arise. */
  lemma ExampleTwoOfThree(parse: string -> Option<IP>, sign: Signer)
    requires parse("10.0.0.1/24") == Some("10.0.0.1")
    requires parse("10.0.0.2/24") == Some("10.0.0.2")
    requires parse("10.0.0.3/24") == Some("10.0.0.3")
    ensures var c := Cycle(Success(ExampleTasks()), [Some("aa"), Some("bb"), None],
                           ["ws://10.0.0.1:8443/aa", "ws://10.0.0.2:8443/bb"]);
      && Consistent(Config("devnet", None), parse, c)
      && Generate(Config("devnet", None), parse, sign, c)
         == Success("ws://10.0.0.1:8443/aa\nws://10.0.0.2:8443/bb\n")
  {
    var u1 := "ws://10.0.0.1:8443/aa";
    var u2 := "ws://10.0.0.2:8443/bb";
    var cfg := Config("devnet", None);
    var c := Cycle(Success(ExampleTasks()), [Some("aa"), Some("bb"), None], [u1, u2]);
    ExampleConsistent(parse);
    assert Generate(cfg, parse, sign, c) == Success(Join([u1, u2]));
    ExampleJoin();
  }

  lemma ExampleJoin()
    ensures Join(["ws://10.0.0.1:8443/aa", "ws://10.0.0.2:8443/bb"])
         == "ws://10.0.0.1:8443/aa\nws://10.0.0.2:8443/bb\n"
  {
    var u1 := "ws://10.0.0.1:8443/aa";
    var u2 := "ws://10.0.0.2:8443/bb";
    assert [u1, u2][1..] == [u2];
    assert [u2][1..] == [];
  }

  lemma ExampleConsistent(parse: string -> Option<IP>)
    requires parse("10.0.0.1/24") == Some("10.0.0.1")
    requires parse("10.0.0.2/24") == Some("10.0.0.2")
    requires parse("10.0.0.3/24") == Some("10.0.0.3")
    ensures Consistent(Config("devnet", None), parse,
      Cycle(Success(ExampleTasks()), [Some("aa"), Some("bb"), None],
            ["ws://10.0.0.1:8443/aa", "ws://10.0.0.2:8443/bb"]))
  {
    ExampleCandidates(parse);
    ExampleFetch();
  }

  function ExampleTasks(): seq<Task> {
    [ Task("a", Running, Running, [Attachment("devnet", ["10.0.0.1/24"])]),
      Task("b", Running, Running, [Attachment("devnet", ["10.0.0.2/24"])]),
      Task("c", Running, Running, [Attachment("devnet", ["10.0.0.3/24"])]) ]
  }

  lemma ExampleCandidates(parse: string -> Option<IP>)
    requires parse("10.0.0.1/24") == Some("10.0.0.1")
    requires parse("10.0.0.2/24") == Some("10.0.0.2")
    requires parse("10.0.0.3/24") == Some("10.0.0.3")
    ensures Candidates(ExampleTasks(), "devnet", parse) == ["10.0.0.1", "10.0.0.2", "10.0.0.3"]
  {
  }

  lemma ExampleFetch()
    ensures Fetch(["10.0.0.1", "10.0.0.2", "10.0.0.3"], [Some("aa"), Some("bb"), None])
         == ["ws://10.0.0.1:8443/aa", "ws://10.0.0.2:8443/bb"]
  {
    var ips: seq<IP> := ["10.0.0.1", "10.0.0.2", "10.0.0.3"];
    var outcomes: seq<Option<string>> := [Some("aa"), Some("bb"), None];
    assert ips[1..] == ["10.0.0.2", "10.0.0.3"] && ips[1..][1..] == ["10.0.0.3"];
    assert outcomes[1..] == [Some("bb"), None] && outcomes[1..][1..] == [None];
    assert Fetch(["10.0.0.3"], [None]) == [];
    assert Fetch(ips[1..], outcomes[1..]) == [FormatURL("10.0.0.2", "bb")];
    assert Fetch(ips, outcomes) == [FormatURL("10.0.0.1", "aa")] + Fetch(ips[1..], outcomes[1..]);
    assert FormatURL("10.0.0.1", "aa") == "ws://10.0.0.1:8443/aa";
    assert FormatURL("10.0.0.2", "bb") == "ws://10.0.0.2:8443/bb";
  }
}
