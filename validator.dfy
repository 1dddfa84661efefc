/**
 * The pre-flight gate `validate_input(endpoint, start_block, end_block)`.
 * The checks run in a fixed order and the first one that fails decides the
 * error: negative block numbers, then an empty range, then the endpoint shape.
 * The `isinstance(..., int)` check is carried by Dafny's `int` typing.
 */
module Validator {

  /** The `ValueError`s the gate raises, one per check. */
  datatype InvalidInput = NegativeBlock | EndBeforeStart | InvalidEndpoint

  /** The message carried by each `ValueError`. */
  function Message(e: InvalidInput): (text: string)
  {
    match e
    case NegativeBlock => "start_block and end_block must be positive integers"
    case EndBeforeStart => "end_block must be greater than or equal to start_block"
    case InvalidEndpoint => "Invalid endpoint URL"
  }

  datatype Verdict = Accepted | Rejected(error: InvalidInput)

  predicate StartsWith(s: string, prefix: string)
  {
    |prefix| <= |s| && s[..|prefix|] == prefix
  }

  predicate NoLineBreak(s: string)
  {
    forall i :: 0 <= i < |s| ==> s[i] != '\n'
  }

  /**
   * Whether `.*$` matches all of `rest`: `.` matches anything but a line
   * break, and `$` matches at the end or just before one final line break.
   */
  predicate DotStarToEnd(rest: string)
  {
    NoLineBreak(rest) || (|rest| > 0 && rest[|rest| - 1] == '\n' && NoLineBreak(rest[..|rest| - 1]))
  }

  /** Whether `re.match(r'^https?://.*$', endpoint)` succeeds. */
  predicate EndpointMatches(endpoint: string)
  {
    || (StartsWith(endpoint, "http://") && DotStarToEnd(endpoint[7..]))
    || (StartsWith(endpoint, "https://") && DotStarToEnd(endpoint[8..]))
  }

  /**
   * Accepts exactly when all checks pass, whatever their order; otherwise
   * reports the first violated check in source order.
   */
  function ValidateInput(endpoint: string, startBlock: int, endBlock: int): (r: Verdict)
    ensures r == Accepted <==> 0 <= startBlock && 0 <= endBlock && startBlock <= endBlock && EndpointMatches(endpoint)
    ensures r == Rejected(NegativeBlock) <==> startBlock < 0 || endBlock < 0
    ensures r == Rejected(EndBeforeStart) <==> 0 <= endBlock < startBlock
    ensures r == Rejected(InvalidEndpoint) <==> 0 <= startBlock <= endBlock && !EndpointMatches(endpoint)
  {
    if startBlock < 0 || endBlock < 0 then Rejected(NegativeBlock)
    else if endBlock < startBlock then Rejected(EndBeforeStart)
    else if !EndpointMatches(endpoint) then Rejected(InvalidEndpoint)
    else Accepted
  }

  /** A single-block range is a valid range; a reversed one is not, even with a good endpoint. */
  lemma RangeBoundaries(endpoint: string, n: nat)
    requires EndpointMatches(endpoint)
    ensures ValidateInput(endpoint, n, n) == Accepted
    ensures ValidateInput(endpoint, n + 1, n) == Rejected(EndBeforeStart)
    ensures Message(ValidateInput(endpoint, n + 1, n).error) == "end_block must be greater than or equal to start_block"
  {
  }

  /** Negative block numbers are reported before a reversed range and before a bad endpoint. */
  lemma NegativityComesFirst(endpoint: string, startBlock: int, endBlock: int)
    requires startBlock < 0 || endBlock < 0
    ensures ValidateInput(endpoint, startBlock, endBlock) == Rejected(NegativeBlock)
  {
  }

  /** Nothing after `://` is constrained, as long as it holds no line break. */
  lemma {:induction false} AnyRestAccepted(rest: string)
    requires NoLineBreak(rest)
    ensures EndpointMatches("http://" + rest)
    ensures EndpointMatches("https://" + rest)
  {
    assert ("http://" + rest)[..7] == "http://";
    assert ("http://" + rest)[7..] == rest;
    assert ("https://" + rest)[..8] == "https://";
    assert ("https://" + rest)[8..] == rest;
  }

  /** The scheme test is case-sensitive and admits only `http` and `https`. */
  lemma SchemeIsCaseSensitive()
    ensures !EndpointMatches("HTTP://x")
    ensures !EndpointMatches("Https://x")
    ensures !EndpointMatches("ftp://x")
    ensures !EndpointMatches("localhost:8545")
  {
    assert "HTTP://x"[..7][0] != "http://"[0];
    assert "Https://x"[..7][0] != "http://"[0] && "Https://x"[..8][0] != "https://"[0];
    assert "ftp://x"[..7][0] != "http://"[0] && |"ftp://x"| < 8;
  }

  /** `$` lets one final line break through, but a line break inside the URL is refused. */
  lemma LineBreaksAfterScheme()
    ensures EndpointMatches("http://x\n")
    ensures !EndpointMatches("http://x\ny")
  {
    assert "http://x\n"[..7] == "http://";
    assert "http://x\n"[7..] == "x\n";
    assert "x\n"[..1] == "x";
    assert "http://x\ny"[7..] == "x\ny";
    assert "x\ny"[1] == '\n';
  }
}
