/** The proof-builder capability of the credential library, as opaque values, and the
    process-wide registry that maps a user id to the builder of its latest commitments. */
module Proofs {
  import opened Outcomes

  /** Identifier of an issuer public key that the proof is requested for. */
  type KeyId = int

  /** The holder's homomorphic public key, opaque here. */
  datatype PublicKey = PublicKey(modulus: int)

  /** A `ProofPListBuilder`: bound to the requested keys and the key share, with the
      randomizers it drew (None before `generateRandomizers` has run). */
  datatype Builder = Builder(keyIds: seq<KeyId>, secret: int, randomizers: Option<int>)

  /** The commitments computed from a builder's randomizers. */
  datatype Commitments = Commitments(keyIds: seq<KeyId>, randomizers: Option<int>)

  /** Which step of `generateCommitments`, if any, the credential library throws in:
      the builder's constructor, `generateRandomizers` or `calculateCommitments`. */
  datatype LibraryOutcome = Succeeds | FailsInConstructor | FailsInRandomizers | FailsInCommitments

  /** The proof fragment a builder produces for one challenge. */
  datatype ProofP = ProofP(builder: Builder, challenge: int, holderKey: PublicKey)

  /** `calculateCommitments`. */
  function CalculateCommitments(b: Builder): Commitments
  {
    Commitments(b.keyIds, b.randomizers)
  }

  /** `build(challenge, publicKey)`. */
  function Build(b: Builder, challenge: int, holderKey: PublicKey): ProofP
  {
    ProofP(b, challenge, holderKey)
  }

  /** The static `builders` map, shared by every account object of the process. */
  class BuilderRegistry {
    var builders: map<int, Builder>

    constructor ()
      ensures builders == map[]
    {
      builders := map[];
    }
  }
}
