/** Selection of candidate peers from a snapshot of swarm tasks: the
    filter and address scan of `getURLs`. */
module Tasks {
  import opened Wrappers
  import opened Counting

  /** The swarm task states. */
  datatype TaskState =
    | New | Allocated | Pending | Assigned | Accepted | Preparing | Ready
    | Starting | Running | Complete | Shutdown | Failed | Rejected | Remove | Orphaned

  /** A task's attachment to one network, with its addresses in CIDR form. */
  datatype Attachment = Attachment(network: string, addresses: seq<string>)

  datatype Task = Task(id: string, desiredState: TaskState, state: TaskState, attachments: seq<Attachment>)

  /** An IP address in its printed form. */
  type IP = string

  /** The text the source hands to the CIDR parser in place of the address. */
  const CidrLiteral := "address"

  predicate IsRunning(t: Task) {
    t.desiredState == Running && t.state == Running
  }

  /** An attachment the scan stops at: on the target network, with an address. */
  predicate OnNetwork(a: Attachment, network: string) {
    a.network == network && |a.addresses| > 0
  }

  /** `atts[k]` is the first attachment the scan stops at. */
  predicate FirstOnNetwork(atts: seq<Attachment>, network: string, k: int) {
    && 0 <= k < |atts|
    && OnNetwork(atts[k], network)
    && forall j :: 0 <= j < k ==> !OnNetwork(atts[j], network)
  }

  /** The first address of the first attachment on the target network that
      has one; the empty string when there is none. */
  function SelectAddress(atts: seq<Attachment>, network: string): (addr: string)
    ensures (forall k :: 0 <= k < |atts| ==> !OnNetwork(atts[k], network)) ==> addr == ""
    ensures forall k :: FirstOnNetwork(atts, network, k) ==> addr == atts[k].addresses[0]
  {
    if |atts| == 0 then ""
    else if OnNetwork(atts[0], network) then atts[0].addresses[0]
    else
      var addr := SelectAddress(atts[1..], network);
      assert forall k :: FirstOnNetwork(atts, network, k) ==> FirstOnNetwork(atts[1..], network, k - 1);
      addr
  }

  /** The candidate a task yields. `step` turns the selected address into
      an IP; see `AsWritten` for the step the source performs. A task yields
      one iff it is running in both senses, its scan stops at an attachment
      whose first address is non-empty, and the step accepts that address. */
  function TaskCandidate(t: Task, network: string, step: string -> Option<IP>): (c: Option<IP>)
    ensures c.Some? <==>
      && IsRunning(t)
      && (exists k :: FirstOnNetwork(t.attachments, network, k)
           && t.attachments[k].addresses[0] != ""
           && step(t.attachments[k].addresses[0]).Some?)
    ensures c.Some? ==> step(SelectAddress(t.attachments, network)) == c
  {
    if !IsRunning(t) then None
    else
      var addr := SelectAddress(t.attachments, network);
      if addr == "" then None
      else
        var k := FirstIndex(t.attachments, network);
        assert FirstOnNetwork(t.attachments, network, k);
        step(addr)
  }

  /** Index of the first attachment on the network, when there is one. */
  function FirstIndex(atts: seq<Attachment>, network: string): (k: int)
    requires exists k :: 0 <= k < |atts| && OnNetwork(atts[k], network)
    ensures FirstOnNetwork(atts, network, k)
  {
    if OnNetwork(atts[0], network) then 0
    else
      assert exists k :: 0 <= k < |atts[1..]| && OnNetwork(atts[1..][k], network) by {
        var k :| 0 <= k < |atts| && OnNetwork(atts[k], network);
        assert atts[1..][k - 1] == atts[k];
      }
      1 + FirstIndex(atts[1..], network)
  }

  /** One candidate per task that yields one, in task order. */
  function Candidates(tasks: seq<Task>, network: string, step: string -> Option<IP>): (cs: seq<IP>)
    ensures |cs| <= |tasks|
  {
    if |tasks| == 0 then []
    else
      var head := match TaskCandidate(tasks[0], network, step) case Some(ip) => [ip] case None => [];
      head + Candidates(tasks[1..], network, step)
  }

  /** Whether the task at position `i` yields `ip`. */
  function YieldsAt(tasks: seq<Task>, network: string, step: string -> Option<IP>, ip: IP): int -> bool
  {
    i => 0 <= i < |tasks| && TaskCandidate(tasks[i], network, step) == Some(ip)
  }

  /** Unfolding `Candidates` at position `k` of the snapshot. */
  lemma CandidatesStep(tasks: seq<Task>, network: string, step: string -> Option<IP>, k: nat)
    requires k < |tasks|
    ensures Candidates(tasks[k..], network, step) ==
      (match TaskCandidate(tasks[k], network, step) case Some(ip) => [ip] case None => [])
      + Candidates(tasks[k + 1..], network, step)
  {
    assert tasks[k..][1..] == tasks[k + 1..] && tasks[k..][0] == tasks[k];
  }

  /** Each IP occurs among the candidates of a suffix of the snapshot as
      often as tasks of that suffix yield it. */
  lemma {:induction false} CandidateMultiplicityFrom(tasks: seq<Task>, network: string, step: string -> Option<IP>, ip: IP, k: nat)
    requires k <= |tasks|
    ensures multiset(Candidates(tasks[k..], network, step))[ip]
         == |Positions(|tasks|, k, YieldsAt(tasks, network, step, ip))|
    decreases |tasks| - k
  {
    var p := YieldsAt(tasks, network, step, ip);
    if k == |tasks| {
      PositionsEmpty(|tasks|, p);
    } else {
      var hit := TaskCandidate(tasks[k], network, step) == Some(ip);
      var rest := multiset(Candidates(tasks[k + 1..], network, step))[ip];
      assert multiset(Candidates(tasks[k..], network, step))[ip] == (if hit then 1 else 0) + rest by {
        CandidatesStep(tasks, network, step, k);
      }
      assert rest == |Positions(|tasks|, k + 1, p)| by {
        CandidateMultiplicityFrom(tasks, network, step, ip, k + 1);
      }
      PositionsStep(|tasks|, k, p);
      assert p(k) == hit;
    }
  }

  /** Exactly one candidate per task that yields one: each IP occurs among
      the candidates as often as tasks yield it. */
  lemma CandidateMultiplicity(tasks: seq<Task>, network: string, step: string -> Option<IP>, ip: IP)
    ensures multiset(Candidates(tasks, network, step))[ip]
         == |set i | 0 <= i < |tasks| && TaskCandidate(tasks[i], network, step) == Some(ip)|
  {
    CandidateMultiplicityFrom(tasks, network, step, ip, 0);
    assert tasks[0..] == tasks;
    assert Positions(|tasks|, 0, YieldsAt(tasks, network, step, ip))
        == set i | 0 <= i < |tasks| && TaskCandidate(tasks[i], network, step) == Some(ip);
  }

  /** Every candidate comes from a task, and every task that yields a
      candidate contributes it. */
  lemma {:induction false} CandidatesFromTasks(tasks: seq<Task>, network: string, step: string -> Option<IP>, ip: IP)
    ensures ip in Candidates(tasks, network, step) <==>
      exists i :: 0 <= i < |tasks| && TaskCandidate(tasks[i], network, step) == Some(ip)
  {
    if |tasks| > 0 {
      CandidatesFromTasks(tasks[1..], network, step, ip);
      if exists i :: 0 <= i < |tasks| && TaskCandidate(tasks[i], network, step) == Some(ip) {
        var i :| 0 <= i < |tasks| && TaskCandidate(tasks[i], network, step) == Some(ip);
        if i > 0 {
          assert tasks[1..][i - 1] == tasks[i];
        }
      }
      if ip in Candidates(tasks[1..], network, step) {
        var i :| 0 <= i < |tasks[1..]| && TaskCandidate(tasks[1..][i], network, step) == Some(ip);
        assert tasks[i + 1] == tasks[1..][i];
      }
    }
  }

  /** A task that is not running in both senses contributes nothing:
      prepending it leaves the candidates unchanged. */
  lemma NotRunningSkipped(t: Task, tasks: seq<Task>, network: string, step: string -> Option<IP>)
    requires !IsRunning(t)
    ensures Candidates([t] + tasks, network, step) == Candidates(tasks, network, step)
  {
  }

  /** The step the source performs: the parser is applied to the constant
      `CidrLiteral`, whatever address was selected. */
  function AsWritten(parse: string -> Option<IP>): (step: string -> Option<IP>)
    ensures forall addr :: step(addr) == parse(CidrLiteral)
  {
    (addr: string) => parse(CidrLiteral)
  }

  /** As written, every candidate is the same value, the parse of the
      constant. */
  lemma {:induction false} AsWrittenCandidatesConstant(tasks: seq<Task>, network: string, parse: string -> Option<IP>)
    ensures forall k :: 0 <= k < |Candidates(tasks, network, AsWritten(parse))| ==>
      parse(CidrLiteral) == Some(Candidates(tasks, network, AsWritten(parse))[k])
  {
    if |tasks| > 0 {
      AsWrittenCandidatesConstant(tasks[1..], network, parse);
    }
  }

  /** As written, when the constant does not parse no task yields a
      candidate. */
  lemma {:induction false} AsWrittenNoCandidates(tasks: seq<Task>, network: string, parse: string -> Option<IP>)
    requires parse(CidrLiteral).None?
    ensures Candidates(tasks, network, AsWritten(parse)) == []
  {
    if |tasks| > 0 {
      AsWrittenNoCandidates(tasks[1..], network, parse);
    }
  }

  /** With the parser applied to the selected address, the candidates are
      exactly the parses of the selected addresses of the running tasks. */
  lemma {:induction false} CorrectedCandidates(tasks: seq<Task>, network: string, parse: string -> Option<IP>, ip: IP)
    ensures ip in Candidates(tasks, network, parse) <==>
      exists i :: 0 <= i < |tasks| && IsRunning(tasks[i])
        && SelectAddress(tasks[i].attachments, network) != ""
        && parse(SelectAddress(tasks[i].attachments, network)) == Some(ip)
  {
    CandidatesFromTasks(tasks, network, parse, ip);
  }

  /** A running task on the network with address `10.0.0.1/24`, under any
      parser that rejects the constant (as Go's `net.ParseCIDR` rejects a
      string with no `/`) and reads the address's IP: as written it yields
      no candidate, with the parser applied to the address it yields one. */
  lemma AsWrittenDropsValidAddress(parse: string -> Option<IP>)
    requires parse(CidrLiteral).None?
    requires parse("10.0.0.1/24") == Some("10.0.0.1")
    ensures var tasks := [Task("t1", Running, Running, [Attachment("devnet", ["10.0.0.1/24"])])];
      && Candidates(tasks, "devnet", AsWritten(parse)) == []
      && Candidates(tasks, "devnet", parse) == ["10.0.0.1"]
  {
  }
}
