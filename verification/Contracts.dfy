/** The enumerations and records of the shared request and response contracts. */
module Contracts {
  import opened Options

  datatype MemoryType =
    | Fact | Decision | Task | Bug | Summary | ImplementationDetail | ChangeLog | Risk | Constraint | Fix
    | OpenQuestion

  datatype AuthorityClass =
    | Repository | UserConfirmed | ToolVerified | TestVerified | SessionDerived | ModelDerived

  datatype VerificationStatus = Verified | UserConfirmedStatus | Inferred | Contradicted | Unverified

  datatype ContextSourceClass = FromRepository | FromMemory | FromSessionGraph | FromConflict

  datatype RetrievalIntent = NoRetrieval | RepositoryOnly | MemoryOnly | SessionGraphOnly | Hybrid

  // ----- Token counts -----

  const U32_MAX := 0xFFFF_FFFF

  type u32 = x: int | 0 <= x <= U32_MAX

  function SaturatingAdd(a: u32, b: u32): (r: u32)
    ensures a <= r && b <= r
  {
    if a + b > U32_MAX then U32_MAX else a + b
  }

  /** `rest` stands for the excerpt, authority and verification of a proof. */
  datatype ProofHandle = ProofHandle(
    proofType: int, sourceRef: string, sessionId: Option<int>, sessionEventId: Option<int>, rest: string)

  datatype ProvenanceHandle = ProvenanceHandle(sessionId: int, sessionEventId: int, excerpt: Option<string>)

  /** A context item. `folded` is its title and summary, trimmed and in lower case, joined by a
      colon. */
  datatype ContextItem = ContextItem(
    source: ContextSourceClass, memoryType: MemoryType, title: string, folded: string, tokens: u32,
    proofs: seq<ProofHandle>, provenance: seq<ProvenanceHandle>, claimKey: Option<string>,
    authority: Option<AuthorityClass>, verification: Option<VerificationStatus>,
    validTo: Option<string>, supersededBy: Option<int>)

  function SourceName(source: ContextSourceClass): string {
    match source
    case FromRepository => "Repository"
    case FromMemory => "Memory"
    case FromSessionGraph => "SessionGraph"
    case FromConflict => "Conflict"
  }

  /** The key by which both packers drop repeated items. */
  function DedupeKey(item: ContextItem): string {
    match item.claimKey
    case Some(key) => key
    case None => SourceName(item.source) + ":" + item.folded
  }

  // ----- Token sums -----

  function TokenSum(items: seq<ContextItem>): nat {
    if items == [] then 0 else TokenSum(items[..|items| - 1]) + items[|items| - 1].tokens
  }

  /** The sum as the packers keep it. */
  function UsedTokens(items: seq<ContextItem>): u32 {
    if items == [] then 0 else SaturatingAdd(UsedTokens(items[..|items| - 1]), items[|items| - 1].tokens)
  }

  lemma {:induction false} UsedIsCappedSum(items: seq<ContextItem>)
    ensures UsedTokens(items) == if TokenSum(items) > U32_MAX then U32_MAX else TokenSum(items)
  {
    if items != [] {
      UsedIsCappedSum(items[..|items| - 1]);
    }
  }

  lemma UsedAppend(items: seq<ContextItem>, item: ContextItem)
    ensures UsedTokens(items + [item]) == SaturatingAdd(UsedTokens(items), item.tokens)
    ensures TokenSum(items + [item]) == TokenSum(items) + item.tokens
  {
    assert (items + [item])[..|items|] == items;
  }

  /** The items at these indexes. */
  function Picked(c: seq<ContextItem>, picks: seq<nat>): seq<ContextItem>
    requires forall k | 0 <= k < |picks| :: picks[k] < |c|
  {
    seq(|picks|, k requires 0 <= k < |picks| => c[picks[k]])
  }

  lemma PickedAppend(c: seq<ContextItem>, picks: seq<nat>, i: nat)
    requires i < |c| && forall k | 0 <= k < |picks| :: picks[k] < |c|
    ensures Picked(c, picks + [i]) == Picked(c, picks) + [c[i]]
  {
  }
}
