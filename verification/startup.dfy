/** Process start-up: the signing seed from the environment, then the
    initial generation, both fatal on failure, before anything is served. */
module Startup {
  import opened Wrappers
  import opened Hex
  import opened Pipeline
  import opened Cache

  /** Length in bytes of an Ed25519 seed. */
  const SeedSize := 32

  /** Reasons the process exits before serving. */
  datatype Fatal = InvalidSeed | InitialGenerationFailed(cause: GenError)

  /** The environment value of the signing seed: empty disables signing;
      anything else must be base16 text of exactly `SeedSize` bytes. */
  function ParseSeed(env: string): (r: Result<Option<seq<byte>>, Fatal>)
    ensures r.Success? <==>
      env == "" || (|env| == 2 * SeedSize && forall i :: 0 <= i < |env| ==> IsHexDigit(env[i]))
    ensures r == Success(None) <==> env == ""
    ensures r.Success? && r.value.Some? ==> |r.value.value| == SeedSize
    ensures r.Success? && r.value.Some? ==> Hex.Decode(env) == Some(r.value.value)
    ensures r.Success? && r.value.Some? ==> forall i :: 0 <= i < SeedSize ==>
      r.value.value[i] == ValueOf(env[2 * i]) * 16 + ValueOf(env[2 * i + 1])
    ensures r.Failure? ==> r.error == InvalidSeed
  {
    if env == "" then Success(None)
    else
      match Hex.Decode(env)
      case Some(buf) =>
        if |buf| == SeedSize then Success(Some(buf)) else Failure(InvalidSeed)
      case None => Failure(InvalidSeed)
  }

  /** Every seed, written as base16, is accepted and read back unchanged. */
  lemma SeedRoundTrip(seed: seq<byte>)
    requires |seed| == SeedSize
    ensures ParseSeed(Hex.Encode(seed)) == Success(Some(seed))
  {
    DecodeEncode(seed);
  }

  /** A started process: the signing seed it uses for its whole lifetime
      and its cache. */
  datatype Process = Process(seed: Option<seq<byte>>, cache: CacheState)

  /** Start-up: parse the seed, run the first generation with it, and only
      then start serving. `generate` is the outcome of the first
      generation for a given seed. */
  function Boot(env: string, generate: Option<seq<byte>> -> Result<string, GenError>): (r: Result<Process, Fatal>)
    ensures ParseSeed(env).Failure? ==> r == Failure(InvalidSeed)
    ensures ParseSeed(env).Success? ==>
      (r.Success? <==> generate(ParseSeed(env).value).Success?)
    ensures ParseSeed(env).Success? && r.Failure? ==>
      r.error == InitialGenerationFailed(generate(ParseSeed(env).value).error)
    ensures r.Success? ==> r.value.seed == ParseSeed(env).value
    ensures r.Success? ==> Serve(r.value.cache) == Some(Response(StatusOK, ContentType, generate(r.value.seed).value))
  {
    match ParseSeed(env)
    case Failure(e) => Failure(e)
    case Success(seed) =>
      match generate(seed)
      case Failure(e) => Failure(InitialGenerationFailed(e))
      case Success(list) => Success(Process(seed, Serving(list)))
  }
}
