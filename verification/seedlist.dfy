/** Seed-list assembly: the URL each fetched key becomes, and
    `generateSeedList`'s buffer of URL lines with its optional signature
    block. */
module SeedList {
  import opened Wrappers
  import opened Hex
  import opened Text
  import opened Tasks
  import opened Counting

  /** Produces the signature of a message under the key derived from a
      seed; Ed25519 itself is not modelled. */
  type Signer = (seq<byte>, string) -> seq<byte>

  const Scheme := "ws://"
  const PortPath := ":8443/"

  /** The connection URL of a peer at `ip` whose public key is `key`. */
  function FormatURL(ip: IP, key: string): (u: string)
    ensures |u| == |Scheme| + |ip| + |PortPath| + |key|
    ensures u[..|Scheme|] == Scheme
    ensures u[|Scheme|..|Scheme| + |ip|] == ip
    ensures u[|Scheme| + |ip|..|Scheme| + |ip| + |PortPath|] == PortPath
    ensures u[|Scheme| + |ip| + |PortPath|..] == key
  {
    Scheme + ip + PortPath + key
  }

  /** The URL determines its key once the IP is known. */
  lemma FormatURLInjective(ip: IP, k1: string, k2: string)
    requires FormatURL(ip, k1) == FormatURL(ip, k2)
    ensures k1 == k2
  {
  }

  /** A URL built from break-free parts has no line break. */
  lemma FormatURLNoNewline(ip: IP, key: string)
    requires NoNewline(ip) && NoNewline(key)
    ensures NoNewline(FormatURL(ip, key))
  {
  }

  /** Number of key requests that returned a key. */
  function Successes(outcomes: seq<Option<string>>): (n: nat)
    ensures n <= |outcomes|
  {
    if |outcomes| == 0 then 0
    else (if outcomes[0].Some? then 1 else 0) + Successes(outcomes[1..])
  }

  /** The URLs the key requests produce, in candidate order: `outcomes[i]`
      is the result of asking `cands[i]` for its key. One URL per
      successful request, none per failed one. */
  function Fetch(cands: seq<IP>, outcomes: seq<Option<string>>): (urls: seq<string>)
    requires |outcomes| == |cands|
    ensures |urls| == Successes(outcomes)
    ensures forall u :: u in urls <==>
      exists i :: 0 <= i < |cands| && outcomes[i].Some? && u == FormatURL(cands[i], outcomes[i].value)
  {
    if |cands| == 0 then []
    else
      var rest := Fetch(cands[1..], outcomes[1..]);
      match outcomes[0]
      case Some(key) => [FormatURL(cands[0], key)] + rest
      case None => rest
  }

  /** Whether the request at position `i` returned the key that, with the
      candidate's IP, forms `u`. */
  function ReturnsAt(cands: seq<IP>, outcomes: seq<Option<string>>, u: string): int -> bool
    requires |outcomes| == |cands|
  {
    i => 0 <= i < |cands| && outcomes[i].Some? && FormatURL(cands[i], outcomes[i].value) == u
  }

  /** Each URL occurs among the URLs of a suffix of the requests as often
      as requests of that suffix returned the key it carries. */
  lemma {:induction false} FetchMultiplicityFrom(cands: seq<IP>, outcomes: seq<Option<string>>, u: string, k: nat)
    requires |outcomes| == |cands| && k <= |cands|
    ensures multiset(Fetch(cands[k..], outcomes[k..]))[u] == |Positions(|cands|, k, ReturnsAt(cands, outcomes, u))|
    decreases |cands| - k
  {
    var p := ReturnsAt(cands, outcomes, u);
    if k == |cands| {
      PositionsEmpty(|cands|, p);
    } else {
      var hit := outcomes[k].Some? && FormatURL(cands[k], outcomes[k].value) == u;
      var rest := multiset(Fetch(cands[k + 1..], outcomes[k + 1..]))[u];
      assert multiset(Fetch(cands[k..], outcomes[k..]))[u] == (if hit then 1 else 0) + rest by {
        FetchStep(cands, outcomes, k);
      }
      assert rest == |Positions(|cands|, k + 1, p)| by {
        FetchMultiplicityFrom(cands, outcomes, u, k + 1);
      }
      PositionsStep(|cands|, k, p);
      assert p(k) == hit;
    }
  }

  /** Unfolding `Fetch` at position `k` of the requests. */
  lemma FetchStep(cands: seq<IP>, outcomes: seq<Option<string>>, k: nat)
    requires |outcomes| == |cands| && k < |cands|
    ensures Fetch(cands[k..], outcomes[k..]) ==
      (match outcomes[k] case Some(key) => [FormatURL(cands[k], key)] case None => [])
      + Fetch(cands[k + 1..], outcomes[k + 1..])
  {
    assert cands[k..][1..] == cands[k + 1..] && cands[k..][0] == cands[k];
    assert outcomes[k..][1..] == outcomes[k + 1..] && outcomes[k..][0] == outcomes[k];
  }

  /** Exactly one URL per successful request: each URL occurs as often as
      requests returned the key it carries from the IP it names. */
  lemma FetchMultiplicity(cands: seq<IP>, outcomes: seq<Option<string>>, u: string)
    requires |outcomes| == |cands|
    ensures multiset(Fetch(cands, outcomes))[u]
         == |set i | 0 <= i < |cands| && outcomes[i].Some? && FormatURL(cands[i], outcomes[i].value) == u|
  {
    assert Positions(|cands|, 0, ReturnsAt(cands, outcomes, u))
        == set i | 0 <= i < |cands| && outcomes[i].Some? && FormatURL(cands[i], outcomes[i].value) == u;
    FetchMultiplicityFrom(cands, outcomes, u, 0);
    assert cands[0..] == cands && outcomes[0..] == outcomes;
  }

  /** IPs and keys without line breaks give URLs without line breaks. */
  lemma FetchNoNewline(cands: seq<IP>, outcomes: seq<Option<string>>)
    requires |outcomes| == |cands|
    requires forall i :: 0 <= i < |cands| ==> NoNewline(cands[i])
    requires forall i :: 0 <= i < |outcomes| && outcomes[i].Some? ==> NoNewline(outcomes[i].value)
    ensures forall u :: u in Fetch(cands, outcomes) ==> NoNewline(u)
  {
    forall u | u in Fetch(cands, outcomes)
      ensures NoNewline(u)
    {
      var i :| 0 <= i < |cands| && outcomes[i].Some? && u == FormatURL(cands[i], outcomes[i].value);
      FormatURLNoNewline(cands[i], outcomes[i].value);
    }
  }

  /** The text of a signature: lowercase base16. */
  function SignatureText(sig: seq<byte>): (t: string)
    ensures |t| == 2 * |sig|
    ensures NoNewline(t)
    ensures forall i :: 0 <= i < |t| ==> IsLowerHexDigit(t[i])
  {
    Hex.Encode(sig)
  }

  /** The artifact: the URL lines in the order given, then, when a seed is
      configured, a blank line, the signature of exactly the URL lines, and
      a line break. */
  function Build(urls: seq<string>, seed: Option<seq<byte>>, sign: Signer): (out: string)
    ensures |out| >= |Join(urls)| && out[..|Join(urls)|] == Join(urls)
    ensures seed.None? ==> out == Join(urls)
    ensures seed.Some? ==> out[|Join(urls)|..] == "\n" + SignatureText(sign(seed.value, Join(urls))) + "\n"
  {
    var lines := Join(urls);
    match seed
    case None => lines
    case Some(s) => lines + "\n" + SignatureText(sign(s, lines)) + "\n"
  }

  /** `generateSeedList`'s buffer writes, one URL and one line break at a
      time, then the signature block. */
  method WriteSeedList(urls: seq<string>, seed: Option<seq<byte>>, sign: Signer) returns (buf: string)
    ensures buf == Build(urls, seed, sign)
  {
    buf := "";
    var i := 0;
    while i < |urls|
      invariant 0 <= i <= |urls|
      invariant buf == Join(urls[..i])
    {
      JoinSnoc(urls[..i], urls[i]);
      assert urls[..i + 1] == urls[..i] + [urls[i]];
      buf := buf + urls[i];
      buf := buf + "\n";
      i := i + 1;
    }
    assert urls[..i] == urls;
    if seed.Some? {
      var sig := sign(seed.value, buf);
      buf := buf + "\n";
      buf := buf + SignatureText(sig);
      buf := buf + "\n";
    }
  }

  /** What a reader of a signed artifact recovers: the signed URL lines and
      the signature bytes. */
  datatype Opened = Opened(lines: string, signature: seq<byte>)

  /** The reading side of a signed artifact: drop the final line break, take
      the text after the last remaining break as the signature, and the text
      before that break as the URL lines. */
  function OpenSigned(out: string): (r: Option<Opened>)
    ensures r.Some? ==> |r.value.lines| < |out| && out[..|r.value.lines|] == r.value.lines
  {
    if |out| == 0 || out[|out| - 1] != '\n' then None
    else
      var body := out[..|out| - 1];
      match LastNewline(body)
      case None => None
      case Some(j) =>
        match Hex.Decode(body[j + 1..])
        case None => None
        case Some(sig) => Some(Opened(body[..j], sig))
  }

  /** A reader recovers exactly the URL lines and the signature computed
      over them. */
  lemma OpenSignedBuild(urls: seq<string>, seed: seq<byte>, sign: Signer)
    ensures OpenSigned(Build(urls, Some(seed), sign)) ==
      Some(Opened(Join(urls), sign(seed, Join(urls))))
  {
    var lines := Join(urls);
    var sig := sign(seed, lines);
    var t := SignatureText(sig);
    var out := Build(urls, Some(seed), sign);
    assert out == lines + "\n" + t + "\n";
    var body := out[..|out| - 1];
    assert body == lines + "\n" + t;
    LastNewlineBefore(lines, t);
    assert body[|lines| + 1..] == t;
    DecodeEncode(sig);
    assert body[..|lines|] == lines;
  }

  /** Without a seed the artifact reads back as the URLs, in the order given. */
  lemma UnsignedLines(urls: seq<string>, sign: Signer)
    requires forall k :: 0 <= k < |urls| ==> NoNewline(urls[k])
    ensures SplitLines(Build(urls, None, sign)) == urls
  {
    SplitJoin(urls);
  }

  /** With no URLs the artifact is empty, or only the signature block. */
  lemma BuildNoURLs(seed: Option<seq<byte>>, sign: Signer)
    ensures seed.None? ==> Build([], seed, sign) == ""
    ensures seed.Some? ==> Build([], seed, sign) == "\n" + SignatureText(sign(seed.value, "")) + "\n"
  {
  }
}
