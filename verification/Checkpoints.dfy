// Checkpoint submissions as the wire decoders hand them to the service.
module Checkpoints {
  import opened Basics
  import opened MerkleTree
  import opened PeakBagging

  /** An MMR consistency proof; its evidence is only read by the imported proof verifier. */
  datatype ExtensionProof = ExtensionProof(sizeA: nat, sizeB: nat, evidence: seq<Digest>)

  /** The COSE form always has the consistency_proof key, the JSON form never. */
  datatype Wire = CoseWire(proof: Option<ExtensionProof>) | JsonWire

  datatype CheckpointFields = CheckpointFields(
    version: int, logId: string, size: int, root: Digest, prevSize: int, prevRoot: Digest, keyId: string,
    timestamp: string, grade: Option<string>, wire: Wire)

  predicate WellFormed(cp: CheckpointFields) {
    && 0 <= cp.prevSize < cp.size
    && (cp.wire.CoseWire? && cp.wire.proof.Some? ==>
      cp.wire.proof.value.sizeA == cp.prevSize && cp.wire.proof.value.sizeB == cp.size)
  }

  /** What the decoders of POST /checkpoints guarantee. */
  type Checkpoint = cp: CheckpointFields | WellFormed(cp)
    witness CheckpointFields(1, "", 1, ZERO_DIGEST, 0, ZERO_DIGEST, "", "", None, JsonWire)

  /** Why a submission is not a checkpoint. */
  datatype Malformed =
    | NoIssuer | SizeNotPositive | PrevSizeNegative | PrevSizeNotSmaller | ProofSpansOtherSizes | SubjectMismatch
    | FieldMissing | PeaksNotDigests

  const GRADE_OBSERVED := "countersigned-observed"

  function ProofOf(cp: Checkpoint): Option<ExtensionProof> {
    if cp.wire.CoseWire? then cp.wire.proof else None
  }

  /** A native CLL log: the COSE form, and not an enrolled foreign accumulator. */
  predicate IsNative(cp: Checkpoint) {
    cp.wire.CoseWire? && cp.grade != Some(GRADE_OBSERVED)
  }

  /** The signing body: neither the grade nor the proof is part of it. */
  datatype SigningBody = SigningBody(version: int, logId: string, size: int, root: Digest, prevSize: int,
                                     prevRoot: Digest, keyId: string, timestamp: string)

  function BodyOf(cp: Checkpoint): SigningBody {
    SigningBody(cp.version, cp.logId, cp.size, cp.root, cp.prevSize, cp.prevRoot, cp.keyId, cp.timestamp)
  }

  /** One body is all of a checkpoint but its grade and its proof, and those are not part of it. */
  lemma {:induction false} BodyIsAllButGradeAndProof(cp: Checkpoint, d: Checkpoint)
    ensures BodyOf(cp) == BodyOf(d) <==>
      && cp.version == d.version && cp.logId == d.logId && cp.size == d.size && cp.root == d.root
      && cp.prevSize == d.prevSize && cp.prevRoot == d.prevRoot && cp.keyId == d.keyId && cp.timestamp == d.timestamp
  {
  }

  function Decimal(n: nat): (s: string)
    ensures s != []
  {
    if n < 10 then [Digit(n)] else Decimal(n / 10) + [Digit(n % 10)]
  }

  function Digit(n: nat): (c: char)
    requires n < 10
    ensures c as int == '0' as int + n
  {
    "0123456789"[n]
  }

  /** The number that a decimal text stands for. */
  function Value(s: string): int {
    if s == [] then 0 else 10 * Value(s[..|s| - 1]) + (s[|s| - 1] as int - '0' as int)
  }

  lemma {:induction false} DecimalReads(n: nat)
    ensures Value(Decimal(n)) == n
  {
    if n >= 10 {
      DecimalReads(n / 10);
      assert Decimal(n)[..|Decimal(n)| - 1] == Decimal(n / 10);
    }
  }

  /** The authenticated claims of a COSE checkpoint statement. */
  datatype CoseClaims = CoseClaims(issuer: string, subject: Option<string>, logSize: int, prevSize: int,
                                   peaks: seq<Digest>, prevPeaks: Option<seq<Digest>>, issuedAt: string,
                                   verifiedKey: string, grade: Option<string>, proof: Option<ExtensionProof>)

  /** The previous root a claim names: none at all without a previous commitment. */
  function PrevRootOf(h: TreeHash, c: CoseClaims): Digest {
    if c.prevPeaks.Some? then Bag(h, c.prevPeaks.value) else Digest([])
  }

  /** A commitment is an array of 32-byte strings. */
  predicate ArePeaks(peaks: seq<Digest>) {
    forall i :: 0 <= i < |peaks| ==> |peaks[i].bytes| == DIGEST_SIZE
  }

  /** The claim checks of parse_and_verify_checkpoint_cose, after the signature has verified. */
  function AdmitCose(h: TreeHash, c: CoseClaims): (r: Result<Checkpoint, Malformed>)
    ensures r.Ok? <==>
      && c.issuer != "" && 0 <= c.prevSize < c.logSize && c.subject == Some(c.issuer + "#" + Decimal(c.logSize))
      && ArePeaks(c.peaks) && (c.prevPeaks.Some? ==> ArePeaks(c.prevPeaks.value))
      && (c.proof.Some? ==> c.proof.value.sizeA == c.prevSize && c.proof.value.sizeB == c.logSize)
    ensures r.Ok? ==> r.value.version == 1 && r.value.logId == c.issuer && r.value.keyId == c.verifiedKey
    ensures r.Ok? ==> r.value.timestamp == c.issuedAt && r.value.size == c.logSize && r.value.prevSize == c.prevSize
    ensures r.Ok? ==> r.value.root == Bag(h, c.peaks)
    ensures r.Ok? && c.prevPeaks.Some? ==> r.value.prevRoot == Bag(h, c.prevPeaks.value)
    ensures r.Ok? && c.prevPeaks.None? ==> r.value.prevRoot == Digest([])
    ensures r.Ok? ==> r.value.grade == c.grade && r.value.wire == CoseWire(c.proof)
  {
    if c.issuer == "" then Err(NoIssuer)
    else if c.logSize <= 0 then Err(SizeNotPositive)
    else if c.prevSize < 0 then Err(PrevSizeNegative)
    else if c.prevSize >= c.logSize then Err(PrevSizeNotSmaller)
    else if !ArePeaks(c.peaks) || (c.prevPeaks.Some? && !ArePeaks(c.prevPeaks.value)) then Err(PeaksNotDigests)
    else if c.proof.Some? && (c.proof.value.sizeA != c.prevSize || c.proof.value.sizeB != c.logSize) then
      Err(ProofSpansOtherSizes)
    else if c.subject != Some(c.issuer + "#" + Decimal(c.logSize)) then Err(SubjectMismatch)
    else Ok(CheckpointFields(1, c.issuer, c.logSize, Bag(h, c.peaks), c.prevSize, PrevRootOf(h, c), c.verifiedKey,
                             c.issuedAt, c.grade, CoseWire(c.proof)))
  }

  /** Two commitments to previous peaks with one root: none in both, or regroupings of each other. */
  predicate PrevRegrouped(h: TreeHash, p: Option<seq<Digest>>, q: Option<seq<Digest>>) {
    match (p, q)
    case (None, None) => true
    case (Some(ps), Some(qs)) => Regrouped(h, ps, qs)
    case _ => false
  }

  lemma PeaksAreWide(h: TreeHash, peaks: seq<Digest>)
    requires FixedWidth(h) && h.width == DIGEST_SIZE && ArePeaks(peaks)
    ensures AllWide(h, OrZero(peaks)) && IsWide(h, Bag(h, peaks))
  {
    BagIsWide(h, OrZero(peaks));
  }

  function RegroupForgery(h: TreeHash, p: seq<Digest>, q: seq<Digest>): (f: Collision)
    requires FixedWidth(h) && h.width == DIGEST_SIZE && ArePeaks(p) && ArePeaks(q)
    requires Bag(h, p) == Bag(h, q) && !Regrouped(h, p, q)
    ensures IsCollision(h, f)
  {
    PeaksAreWide(h, p);
    PeaksAreWide(h, q);
    if |OrZero(p)| <= |OrZero(q)| then BagCollision(h, OrZero(p), OrZero(q))
    else BagCollision(h, OrZero(q), OrZero(p))
  }

  /** A root of previous peaks is never the empty text that stands for none. */
  lemma PrevKindsAgree(h: TreeHash, c: CoseClaims, d: CoseClaims)
    requires FixedWidth(h) && h.width == DIGEST_SIZE
    requires AdmitCose(h, c).Ok? && AdmitCose(h, d).Ok?
    requires AdmitCose(h, c).value.prevRoot == AdmitCose(h, d).value.prevRoot
    ensures c.prevPeaks.Some? <==> d.prevPeaks.Some?
  {
    hide Bag;
    if c.prevPeaks.Some? {
      PeaksAreWide(h, c.prevPeaks.value);
    }
    if d.prevPeaks.Some? {
      PeaksAreWide(h, d.prevPeaks.value);
    }
  }

  /** The signing body of an admitted checkpoint, and with it the digest it is registered under, fixes
      its new and its previous peaks up to a regrouping: from two admitted claims with one body and
      peaks of either kind that are no regrouping of each other, two different hash inputs with one
      hash. */
  function PeakForgery(h: TreeHash, c: CoseClaims, d: CoseClaims): (f: Collision)
    requires FixedWidth(h) && h.width == DIGEST_SIZE
    requires AdmitCose(h, c).Ok? && AdmitCose(h, d).Ok?
    requires BodyOf(AdmitCose(h, c).value) == BodyOf(AdmitCose(h, d).value)
    requires !Regrouped(h, c.peaks, d.peaks) || !PrevRegrouped(h, c.prevPeaks, d.prevPeaks)
    ensures IsCollision(h, f)
  {
    if !Regrouped(h, c.peaks, d.peaks) then RegroupForgery(h, c.peaks, d.peaks)
    else
      PrevKindsAgree(h, c, d);
      RegroupForgery(h, c.prevPeaks.value, d.prevPeaks.value)
  }

  /** Exactly up to that: the numbers of peaks are not checked against the sizes, so a claim some of
      whose last peaks, new or previous, are replaced by their bag is admitted as the very same
      checkpoint. */
  lemma {:induction false} RegroupedPeaksPass(h: TreeHash, c: CoseClaims, peaks: seq<Digest>, prev: Option<seq<Digest>>)
    requires ArePeaks(c.peaks) && ArePeaks(peaks) && Regrouped(h, c.peaks, peaks)
    requires (c.prevPeaks.Some? ==> ArePeaks(c.prevPeaks.value)) && (prev.Some? ==> ArePeaks(prev.value))
    requires PrevRegrouped(h, c.prevPeaks, prev)
    ensures AdmitCose(h, c.(peaks := peaks, prevPeaks := prev)) == AdmitCose(h, c)
  {
    hide Bag, Regrouped, Decimal;
    RegroupedBagsAgree(h, c.peaks, peaks);
    if prev.Some? {
      RegroupedBagsAgree(h, c.prevPeaks.value, prev.value);
    }
  }

  /** The self-declared mmr-checkpoint payload of a Signed Statement, as far as it could be read:
      None for a field that is absent or of the wrong type. */
  datatype PayloadClaim =
    | OtherPayload
    | MmrClaim(logId: Option<string>, keyId: Option<string>, root: Option<Digest>, size: Option<int>,
               prevSize: Option<int>, timestamp: Option<string>)

  datatype MmrFields = MmrFields(logId: string, keyId: string, root: Digest, size: int, prevSize: int,
                                 timestamp: string)

  type MmrCheckpoint = m: MmrFields | 0 <= m.prevSize < m.size witness MmrFields("", "", ZERO_DIGEST, 1, 0, "")

  predicate NonEmpty(s: Option<string>) {
    s.Some? && s.value != ""
  }

  /** parse_checkpoint_payload: any other payload is no checkpoint; a claimed one must be complete, its
      size positive and its previous size below it. */
  function ParsePayload(c: PayloadClaim): (r: Result<Option<MmrCheckpoint>, Malformed>)
    ensures c.OtherPayload? <==> r == Ok(None)
    ensures c.MmrClaim? ==> (r.Ok? <==>
      && NonEmpty(c.logId) && NonEmpty(c.keyId) && c.root.Some? && NonEmpty(c.timestamp)
      && c.size.Some? && c.prevSize.Some? && 0 <= c.prevSize.value < c.size.value)
  {
    if c.OtherPayload? then Ok(None)
    else if !NonEmpty(c.logId) || !NonEmpty(c.keyId) || c.root.None? || c.size.None? || c.prevSize.None?
         || !NonEmpty(c.timestamp) then
      Err(FieldMissing)
    else if c.size.value <= 0 then Err(SizeNotPositive)
    else if c.prevSize.value < 0 then Err(PrevSizeNegative)
    else if c.prevSize.value >= c.size.value then Err(PrevSizeNotSmaller)
    else Ok(Some(MmrFields(c.logId.value, c.keyId.value, c.root.value, c.size.value, c.prevSize.value,
                           c.timestamp.value)))
  }

  /** Parsing returns a checkpoint exactly for the payloads that declare one with its text fields
      filled in, and then the one declared. */
  lemma {:induction false} ParsedCheckpointIsDeclared(c: PayloadClaim, m: MmrCheckpoint)
    ensures ParsePayload(c) == Ok(Some(m)) <==>
      && c == MmrClaim(Some(m.logId), Some(m.keyId), Some(m.root), Some(m.size), Some(m.prevSize), Some(m.timestamp))
      && m.logId != "" && m.keyId != "" && m.timestamp != ""
  {
  }
}
