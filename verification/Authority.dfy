// The authority's hash functions and its signing key, as parameters. Hash inputs and signed
// messages are the values the canonical encodings carry; nothing is assumed about the hashes.
module Authority {
  import opened Basics
  import opened MerkleTree

  datatype Kind = RootEntry | ScittStatement

  /** tree_head_payload. */
  datatype HeadPayload = HeadPayload(logIndex: int, payloadHash: Digest, prevLogHash: Option<Digest>)

  /** ct_leaf_payload: the raw 32 bytes of a statement's entry hash, or an entry record. */
  datatype LeafPayload =
    | RawHash(payloadHash: Digest)
    | EntryRecord(logIndex: int, kind: Kind, payloadHash: Digest, prevLogHash: Option<Digest>, loggedAt: int)

  /** The protected header of a COSE receipt. */
  datatype ReceiptHeader = ReceiptHeader(iat: int, grade: Option<string>, continuity: Option<Continuity>)

  /** The signed continuity assertion. */
  datatype Continuity = Continuity(logId: string, prevSize: int, prevRoot: Digest, size: int, root: Digest, ts: int)

  datatype Message =
    | HeadMessage(payload: HeadPayload)
    | SthMessage(treeSize: int, rootHash: Digest, timestamp: int)
    | ReceiptMessage(header: ReceiptHeader, root: Digest)

  datatype Signature = Signature(hex: string)

  datatype Keys = Keys(
    tree: TreeHash,
    leafHash: LeafPayload -> Digest,
    headHash: HeadPayload -> Digest,
    sha256: Bytes -> Digest,
    attest: Message -> Signature,
    verify: (Message, Signature) -> bool)

  /** The key verifies its own signatures. */
  ghost predicate Sound(a: Keys) {
    forall m :: a.verify(m, a.attest(m))
  }
}
