/**
 What a successful run of SignPdf must have done, revision by revision, for arbitrary services
 (src/lib/pades/PadesBuilder.cpp:487-512, 563-640).
 */
module PadesOutcome {
  import opened ByteStrings
  import opened PdfPlaceholders
  import opened PdfRevision
  import opened PadesEvidence
  import opened PadesLog
  import opened PadesStore

  /** The outside world. The optional providers are modelled by a flag; they may answer every call differently. */
  datatype Services = Services(
    sign: Bytes -> Option<Bytes>,
    signatureValue: Bytes -> Option<Bytes>,
    appendToken: (Bytes, Bytes) -> Option<Bytes>,
    hasTimestamp: bool,
    timestamp: (nat, Bytes) -> Option<Bytes>,
    hasEvidence: bool,
    evidence: (nat, Bytes, Bytes) -> Option<Evidence>)

  /** The contents are what the signer made of the signed bytes, timestamped from profile T on; from LT on the
      evidence for that timestamp was asked for. */
  ghost predicate SignatureFrom(s: Services, level: int, signed: Bytes, contents: Bytes, returned: Option<Evidence>) {
    && s.sign(signed).Some?
    && var cms := s.sign(signed).value;
       if level < 1 then contents == cms && returned == None
       else
         && s.signatureValue(cms).Some?
         && var value := s.signatureValue(cms).value;
         && s.timestamp(0, value).Some?
         && var token := s.timestamp(0, value).value;
         && s.appendToken(cms, token) == Some(contents)
         && returned == (if level >= 2 && s.hasEvidence then s.evidence(0, token, value) else None)
         && (level >= 2 && s.hasEvidence ==> returned.Some?)
  }

  ghost predicate SignedBy(s: Services, level: int, c: Content) {
    c.Sealed? && c.kind == Signature && SignatureFrom(s, level, c.signed, c.contents, c.returned)
  }

  /** Document timestamp number n holds the token for its signed bytes; evidence for it was asked for. */
  ghost predicate StampedBy(s: Services, n: nat, c: Content) {
    && c.Sealed? && c.kind == DocTimeStamp && s.timestamp(n, c.signed) == Some(c.contents)
    && c.returned == (if s.hasEvidence then s.evidence(n, c.contents, c.signed) else None)
    && (s.hasEvidence ==> c.returned.Some?)
  }

  /** A store revision holds a stream for every non-empty blob of the evidence. */
  ghost predicate HoldsEvidence(objs: seq<IncrementalObject>, e: Evidence) {
    forall blob :: InEvidence(e, blob) && blob != [] ==> HasStream(objs, blob)
  }

  ghost predicate StoreOk(r: Revision, e: Evidence) { r.content == Dss(e) && HoldsEvidence(r.objects, e) }

  /** A renewed store keeps what the one before it held and strictly grows. */
  predicate Grew(a: Content, b: Content) {
    a.Dss? && b.Dss? && Extends(a.evidence, b.evidence) && Size(a.evidence) < Size(b.evidence)
  }

  /** Revision i of a run: the signature, then stores and document timestamps in turn. */
  ghost predicate StepOk(s: Services, level: int, log: seq<Revision>, i: nat)
    requires i < |log|
  {
    if i == 0 then SignedBy(s, level, log[0].content)
    else if i % 2 == 1 then
      && log[i].content.Dss? && HoldsEvidence(log[i].objects, log[i].content.evidence)
      && (i >= 3 ==> Grew(log[i - 2].content, log[i].content))
    else StampedBy(s, i / 2, log[i].content)
  }

  ghost predicate StepsOk(s: Services, level: int, log: seq<Revision>) {
    forall i :: 0 <= i < |log| ==> StepOk(s, level, log, i)
  }

  lemma StepsAppend(s: Services, level: int, log: seq<Revision>, r: Revision)
    requires StepsOk(s, level, log) && StepOk(s, level, log + [r], |log|)
    ensures StepsOk(s, level, log + [r])
  {
    hide SignedBy, StampedBy, HoldsEvidence, Grew;
    forall i | 0 <= i < |log| ensures StepOk(s, level, log + [r], i) { assert StepOk(s, level, log, i); }
  }

  /** Every non-empty blob any evidence request of the run returned is held. */
  predicate Gathered(e: Evidence, log: seq<Revision>) {
    forall i :: 0 <= i < |log| && log[i].content.Sealed? && log[i].content.returned.Some? ==>
      Holds(e, log[i].content.returned.value)
  }

  lemma GatheredAppend(e: Evidence, log: seq<Revision>, r: Revision)
    requires Gathered(e, log)
    requires r.content.Sealed? && r.content.returned.Some? ==> Holds(e, r.content.returned.value)
    ensures Gathered(e, log + [r])
  {
    hide Holds;
  }

  lemma GatheredExtends(e: Evidence, e': Evidence, log: seq<Revision>)
    requires Gathered(e, log) && Extends(e, e')
    ensures Gathered(e', log)
  {
    hide Holds, Extends;
    forall i | 0 <= i < |log| && log[i].content.Sealed? && log[i].content.returned.Some?
      ensures Holds(e', log[i].content.returned.value)
    {
      HoldsTransfers(e, e', log[i].content.returned.value);
    }
  }

  const MAX_RENEWALS: nat := 3

  /** The revisions of a finished run at each profile. */
  predicate LengthOk(level: int, log: seq<Revision>) {
    if level < 2 then |log| == 1
    else if level == 2 then |log| == 2
    else 3 <= |log| <= 9 && |log| % 2 == 1
  }

  /** The last store of a run that has one holds the given evidence and everything returned during the run. */
  predicate Settled(level: int, given: Evidence, log: seq<Revision>) {
    level >= 2 ==>
      var i := if level == 2 then |log| - 1 else |log| - 2;
      && 0 <= i < |log| && log[i].content.Dss?
      && Extends(given, log[i].content.evidence) && Gathered(log[i].content.evidence, log)
  }

  // ---- Why a run can fail --------------------------------------------------------------------------

  /** A call of one of the services. */
  datatype Call =
    | Sign(x: Bytes)
    | SignatureValue(cms: Bytes)
    | Timestamp(n: nat, x: Bytes)
    | EvidenceOf(n: nat, token: Bytes, x: Bytes)
    | AppendToken(cms: Bytes, token: Bytes)

  predicate Refused(s: Services, call: Call) {
    match call
    case Sign(x) => s.sign(x).None?
    case SignatureValue(cms) => s.signatureValue(cms).None?
    case Timestamp(n, x) => s.timestamp(n, x).None?
    case EvidenceOf(n, token, x) => s.evidence(n, token, x).None?
    case AppendToken(cms, token) => s.appendToken(cms, token).None?
  }

  /** The calls that are made, one after the other, to sign given bytes. */
  predicate SigningCall(s: Services, level: int, signed: Bytes, call: Call) {
    if call.Sign? then call.x == signed else
      && level >= 1 && s.sign(signed).Some?
      && var cms := s.sign(signed).value;
      if call.SignatureValue? then call.cms == cms else
        && s.signatureValue(cms).Some?
        && var value := s.signatureValue(cms).value;
        if call.Timestamp? then call == Timestamp(0, value) else
          && s.timestamp(0, value).Some?
          && var token := s.timestamp(0, value).value;
          if call.EvidenceOf? then level >= 2 && s.hasEvidence && call == EvidenceOf(0, token, value)
          else call == AppendToken(cms, token)
  }

  /** The slot has room for so many octets. */
  predicate Fits(contents: Bytes) { |contents| <= 8192 }

  /** Four document timestamps in a row, the last of which still came with evidence its store lacks. */
  ghost predicate Unsettled(s: Services, level: int, log: seq<Revision>) {
    && |log| == 9 && StepsOk(s, level, log)
    && log[7].content.Dss? && log[8].content.Sealed? && log[8].content.returned.Some?
    && !Holds(log[7].content.evidence, log[8].content.returned.value)
  }
}
