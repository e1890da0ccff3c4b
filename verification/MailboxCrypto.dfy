/** Authenticated wrapping of evidence and results, the committed manifest, and the
    byte frames they are computed over.

    Hashing, the keyed MAC, the AEAD and the result parser are parameters: every
    statement holds for whatever functions are supplied, and a statement that needs
    more (decryption inverts encryption, an injective text form) says so. */
module MailboxCrypto {
  import opened Identifiers
  import opened MailboxDomain

  datatype Primitives = Primitives(
    hash: Bytes -> Digest,
    mac: Bytes -> Digest,
    seal: (Nonce, Bytes, Bytes) -> Bytes,
    open: (Nonce, Bytes, Bytes) -> Option<Bytes>,
    parseResult: Bytes -> Option<ResultEnvelope>,
    instantText: Instant -> Bytes)

  const TAG_BYTES := 16

  /** What is assumed: opening a sealed box under the same nonce and associated data
      returns the plaintext, the tag costs sixteen bytes, and no result is empty text. */
  ghost predicate Sound(p: Primitives) {
    && (forall n, t, a :: p.open(n, p.seal(n, t, a), a) == Some(t) && |p.seal(n, t, a)| == |t| + TAG_BYTES)
    && p.parseResult([]) == None
  }

  // --- Big-endian and decimal integers ---------------------------------------

  function Big(n: nat, width: nat): (b: Bytes)
    ensures |b| == width
  {
    if width == 0 then [] else Big(n / 256, width - 1) + [(n % 256) as Byte]
  }

  function Pow256(width: nat): nat {
    if width == 0 then 1 else 256 * Pow256(width - 1)
  }

  lemma {:induction false} BigInjective(n: nat, m: nat, width: nat)
    requires n < Pow256(width) && m < Pow256(width)
    requires Big(n, width) == Big(m, width)
    ensures n == m
  {
    if width > 0 {
      var bn, bm := Big(n, width), Big(m, width);
      assert bn[width - 1] == bm[width - 1];
      assert bn[..width - 1] == Big(n / 256, width - 1);
      assert bm[..width - 1] == Big(m / 256, width - 1);
      BigInjective(n / 256, m / 256, width - 1);
    }
  }

  lemma UuidBytesInjective(a: Uuid, b: Uuid)
    requires Big(a, 16) == Big(b, 16)
    ensures a == b
  {
    assert Pow256(4) == 0x1_0000_0000;
    assert Pow256(8) == 0x1_0000_0000_0000_0000;
    assert Pow256(16) == UUID_LIMIT;
    BigInjective(a, b, 16);
  }

  function Decimal(n: nat): (b: Bytes)
    ensures |b| > 0
  {
    if n < 10 then [(48 + n) as Byte] else Decimal(n / 10) + [(48 + n % 10) as Byte]
  }

  lemma {:induction false} DecimalInjective(n: nat, m: nat)
    requires Decimal(n) == Decimal(m)
    ensures n == m
  {
    var dn, dm := Decimal(n), Decimal(m);
    assert dn[|dn| - 1] == dm[|dm| - 1];
    if n >= 10 && m >= 10 {
      assert dn[..|dn| - 1] == Decimal(n / 10);
      assert dm[..|dm| - 1] == Decimal(m / 10);
      DecimalInjective(n / 10, m / 10);
    }
  }

  // --- Length-prefixed frames ------------------------------------------------

  function Framed(parts: seq<Bytes>): Bytes {
    if parts == [] then [] else Big(|parts[0]|, 8) + parts[0] + Framed(parts[1..])
  }

  /** The length of every part fits its eight-byte prefix. */
  ghost predicate Frameable(parts: seq<Bytes>) {
    forall i | 0 <= i < |parts| :: |parts[i]| < Pow256(8)
  }

  /** The frame is uniquely decodable: it determines the list of parts. */
  lemma {:induction false} FramedInjective(a: seq<Bytes>, b: seq<Bytes>)
    requires Frameable(a) && Frameable(b)
    requires Framed(a) == Framed(b)
    ensures a == b
  {
    if a != [] && b != [] {
      var f := Framed(a);
      assert f[..8] == Big(|a[0]|, 8);
      assert f[..8] == Big(|b[0]|, 8);
      BigInjective(|a[0]|, |b[0]|, 8);
      var n := |a[0]|;
      assert f[8..8 + n] == a[0];
      assert f[8..8 + n] == b[0];
      assert f[8 + n..] == Framed(a[1..]);
      assert f[8 + n..] == Framed(b[1..]);
      FramedInjective(a[1..], b[1..]);
      assert a == [a[0]] + a[1..] && b == [b[0]] + b[1..];
    }
  }

  function BindingParts(p: Primitives, b: ActionBinding): (parts: seq<Bytes>) {
    [Big(b.mailboxId, 16), Big(b.actionId, 16), Big(b.intentId, 16), Big(b.attemptId, 16),
     b.connectorRelease, b.capability, b.artifactDigest,
     Decimal(b.dispatchEpoch), Decimal(b.fence), Decimal(b.authorizationEpoch),
     p.instantText(b.claimDeadline), p.instantText(b.deadline),
     Decimal(b.wallSeconds), Decimal(b.responseBytes), b.envelopeDigest]
  }

  function BindingFrame(p: Primitives, b: ActionBinding): Bytes {
    Framed(BindingParts(p, b))
  }

  function BindingDigest(p: Primitives, b: ActionBinding): Digest {
    p.hash(BindingFrame(p, b))
  }

  /** Distinct bindings have distinct frames whenever instants have distinct text. */
  lemma BindingFrameInjective(p: Primitives, a: ActionBinding, b: ActionBinding)
    requires forall t, u :: p.instantText(t) == p.instantText(u) ==> t == u
    requires Frameable(BindingParts(p, a)) && Frameable(BindingParts(p, b))
    requires BindingFrame(p, a) == BindingFrame(p, b)
    ensures a == b
  {
    var x, y := BindingParts(p, a), BindingParts(p, b);
    FramedInjective(x, y);
    assert forall i | 0 <= i < 15 :: x[i] == y[i];
    assert x[0] == y[0] && x[1] == y[1] && x[2] == y[2] && x[3] == y[3];
    UuidBytesInjective(a.mailboxId, b.mailboxId);
    UuidBytesInjective(a.actionId, b.actionId);
    UuidBytesInjective(a.intentId, b.intentId);
    UuidBytesInjective(a.attemptId, b.attemptId);
    assert x[4] == y[4] && x[5] == y[5] && x[6] == y[6] && x[14] == y[14];
    assert x[7] == y[7] && x[8] == y[8] && x[9] == y[9];
    DecimalInjective(a.dispatchEpoch, b.dispatchEpoch);
    DecimalInjective(a.fence, b.fence);
    DecimalInjective(a.authorizationEpoch, b.authorizationEpoch);
    assert x[10] == y[10] && x[11] == y[11];
    assert x[12] == y[12] && x[13] == y[13];
    DecimalInjective(a.wallSeconds, b.wallSeconds);
    DecimalInjective(a.responseBytes, b.responseBytes);
  }

  // --- Evidence wrapping -----------------------------------------------------

  function Ascii(s: string): Bytes {
    seq(|s|, i requires 0 <= i < |s| => (s[i] as int % 256) as Byte)
  }

  const WRAP_CONTEXT: Bytes := Ascii("mycogni.runner-mailbox.evidence-wrap.v1") + [0]
  const RESULT_WRAP_CONTEXT: Bytes := Ascii("mycogni.runner-mailbox.result-wrap.v1") + [0]
  const MANIFEST_CONTEXT: Bytes := Ascii("mycogni.runner-mailbox.committed-manifest.v1") + [0]

  function EvidenceAad(mailboxId: Uuid, objectId: Uuid, slot: Uuid, kind: Bytes, byteCount: nat): Bytes {
    WRAP_CONTEXT + Big(mailboxId, 16) + Big(objectId, 16) + Big(slot, 16) + kind + [0] + Big(byteCount, 8)
  }

  function Wrap(p: Primitives, mailboxId: Uuid, u: EvidenceUpload, nonce: Nonce): WrappedEvidence {
    var aad := EvidenceAad(mailboxId, u.objectId, u.objectId, u.kind, |u.payload|);
    var framed := Big(u.objectId, 16) + p.hash(u.payload) + u.payload;
    var wrapped := p.seal(nonce, framed, aad);
    WrappedEvidence(u.objectId, u.kind, |u.payload|, p.hash(wrapped), p.mac(aad + framed), nonce, wrapped)
  }

  function Unwrap(p: Primitives, mailboxId: Uuid, slot: Uuid, item: WrappedEvidence): Option<EvidenceUpload> {
    if slot != item.objectId || item.byteCount == 0 then None
    else if p.hash(item.wrapped) != item.storageDigest then None
    else
      var aad := EvidenceAad(mailboxId, item.objectId, slot, item.kind, item.byteCount);
      match p.open(item.nonce, item.wrapped, aad)
      case None => None
      case Some(framed) =>
        if p.mac(aad + framed) != item.semanticMac then None
        else if |framed| != 16 + 32 + item.byteCount then None
        else if framed[..16] != Big(slot, 16) then None
        else if p.hash(framed[48..]) != framed[16..48] then None
        else if item.byteCount > MAX_EVIDENCE_BYTES then None
        else Some(Upload(item.objectId, item.kind, framed[16..48], framed[48..]))
  }

  /** A freshly wrapped upload unwraps to itself in its own mailbox and slot. */
  lemma UnwrapWrap(p: Primitives, mailboxId: Uuid, u: EvidenceUpload, nonce: Nonce)
    requires Sound(p)
    requires p.hash(u.payload) == u.payloadDigest
    ensures Unwrap(p, mailboxId, u.objectId, Wrap(p, mailboxId, u, nonce)) == Some(u)
    ensures |Wrap(p, mailboxId, u, nonce).wrapped| == |u.payload| + 64
  {
    var framed := Big(u.objectId, 16) + p.hash(u.payload) + u.payload;
    assert framed[..16] == Big(u.objectId, 16);
    assert framed[16..48] == p.hash(u.payload);
    assert framed[48..] == u.payload;
  }

  // --- Result wrapping -------------------------------------------------------

  function ResultAad(p: Primitives, b: ActionBinding, byteCount: nat): Bytes {
    RESULT_WRAP_CONTEXT + BindingDigest(p, b) + Big(byteCount, 8)
  }

  function WrapResult(p: Primitives, b: ActionBinding, json: Bytes, nonce: Nonce): WrappedResult {
    var aad := ResultAad(p, b, |json|);
    var framed := BindingDigest(p, b) + p.hash(json) + json;
    var wrapped := p.seal(nonce, framed, aad);
    WrappedResult(|json|, p.hash(wrapped), p.mac(aad + framed), nonce, wrapped)
  }

  function UnwrapResult(p: Primitives, b: ActionBinding, item: WrappedResult): Option<Bytes> {
    if item.byteCount == 0 then None
    else if p.hash(item.wrapped) != item.storageDigest then None
    else
      var aad := ResultAad(p, b, item.byteCount);
      match p.open(item.nonce, item.wrapped, aad)
      case None => None
      case Some(framed) =>
        if p.mac(aad + framed) != item.semanticMac then None
        else if |framed| != 32 + 32 + item.byteCount then None
        else if framed[..32] != BindingDigest(p, b) then None
        else if p.hash(framed[64..]) != framed[32..64] then None
        else Some(framed[64..])
  }

  /** A wrapped result unwraps to itself exactly when it is not empty. */
  lemma UnwrapWrapResult(p: Primitives, b: ActionBinding, json: Bytes, nonce: Nonce)
    requires Sound(p)
    ensures UnwrapResult(p, b, WrapResult(p, b, json, nonce)) == if json == [] then None else Some(json)
    ensures |WrapResult(p, b, json, nonce).wrapped| == |json| + 80
  {
    var framed := BindingDigest(p, b) + p.hash(json) + json;
    assert framed[..32] == BindingDigest(p, b);
    assert framed[32..64] == p.hash(json);
    assert framed[64..] == json;
  }

  // --- Committed manifest ----------------------------------------------------

  function IdBytes(ids: seq<Uuid>): (b: Bytes)
    ensures |b| == 16 * |ids|
  {
    if ids == [] then [] else Big(ids[0], 16) + IdBytes(ids[1..])
  }

  lemma {:induction false} IdBytesInjective(a: seq<Uuid>, b: seq<Uuid>)
    requires IdBytes(a) == IdBytes(b)
    ensures a == b
  {
    if a != [] {
      var f := IdBytes(a);
      assert f[..16] == Big(a[0], 16) && f[..16] == Big(b[0], 16);
      UuidBytesInjective(a[0], b[0]);
      assert f[16..] == IdBytes(a[1..]) && f[16..] == IdBytes(b[1..]);
      IdBytesInjective(a[1..], b[1..]);
      assert a == [a[0]] + a[1..] && b == [b[0]] + b[1..];
    }
  }

  /** The frame is a function of the set of object identifiers, whatever order they were staged in. */
  function ManifestFrame(bindingDigest: Digest, resultDigest: Digest, ids: set<Uuid>): Bytes {
    MANIFEST_CONTEXT + bindingDigest + resultDigest + Big(|ids|, 8) + IdBytes(Ascending(ids))
  }

  lemma SplitHead(x: Bytes, tail: Bytes, x': Bytes, tail': Bytes)
    requires |x| == |x'|
    requires x + tail == x' + tail'
    ensures x == x' && tail == tail'
  {
    assert (x + tail)[..|x|] == x && (x' + tail')[..|x|] == x';
    assert (x + tail)[|x|..] == tail && (x' + tail')[|x|..] == tail';
  }

  lemma SplitFive(c: Bytes, b: Bytes, r: Bytes, n: Bytes, t: Bytes, b': Bytes, r': Bytes, n': Bytes, t': Bytes)
    requires |b| == |b'| && |r| == |r'| && |n| == |n'|
    requires c + b + r + n + t == c + b' + r' + n' + t'
    ensures b == b' && r == r' && t == t'
  {
    assert c + b + r + n + t == c + (b + (r + (n + t)));
    assert c + b' + r' + n' + t' == c + (b' + (r' + (n' + t')));
    SplitHead(c, b + (r + (n + t)), c, b' + (r' + (n' + t')));
    SplitHead(b, r + (n + t), b', r' + (n' + t'));
    SplitHead(r, n + t, r', n' + t');
    SplitHead(n, t, n', t');
  }

  /** Equal manifest frames agree on the binding digest, the result digest and the object identifiers. */
  lemma ManifestFrameInjective(b: Digest, r: Digest, ids: set<Uuid>, b': Digest, r': Digest, ids': set<Uuid>)
    requires ManifestFrame(b, r, ids) == ManifestFrame(b', r', ids')
    ensures b == b' && r == r' && ids == ids'
  {
    SplitFive(MANIFEST_CONTEXT, b, r, Big(|ids|, 8), IdBytes(Ascending(ids)),
              b', r', Big(|ids'|, 8), IdBytes(Ascending(ids')));
    IdBytesInjective(Ascending(ids), Ascending(ids'));
    assert forall x :: x in ids <==> x in Ascending(ids);
    assert forall x :: x in ids' <==> x in Ascending(ids');
  }

  function BuildManifest(p: Primitives, b: ActionBinding, ids: set<Uuid>, result: WrappedResult): Manifest {
    var frame := ManifestFrame(BindingDigest(p, b), result.storageDigest, ids);
    Manifest(|ids|, p.hash(frame), p.mac(MANIFEST_CONTEXT + frame))
  }

  // --- Retained material -----------------------------------------------------

  function EvidenceSlots(p: Primitives, r: Record): Option<map<Uuid, EvidenceUpload>> {
    if forall slot | slot in r.evidence :: Unwrap(p, r.binding.mailboxId, slot, r.evidence[slot]).Some? then
      Some(map slot | slot in r.evidence :: Unwrap(p, r.binding.mailboxId, slot, r.evidence[slot]).value)
    else
      None
  }

  predicate SealMatches(seal: EvidenceSeal, u: EvidenceUpload) {
    seal.kind == u.kind && seal.payloadDigest == u.payloadDigest && seal.byteCount == |u.payload|
  }

  /** Whether the result names exactly the staged evidence, each object once. */
  predicate ReferencesValid(p: Primitives, b: ActionBinding, json: Bytes, evidence: map<Uuid, EvidenceUpload>) {
    match p.parseResult(json)
    case None => false
    case Some(result) =>
      var ids := set seal | seal in result.evidence :: seal.objectId;
      && result.actionId == b.actionId
      && result.attemptId == b.attemptId
      && |ids| == |result.evidence|
      && ids == evidence.Keys
      && forall seal | seal in result.evidence :: SealMatches(seal, evidence[seal.objectId])
  }

  datatype Material = Material(evidence: map<Uuid, EvidenceUpload>, result: Option<Bytes>)

  /** Authenticates everything a record retains; `None` is INTERNAL_UNCERTAINTY. */
  function ValidatedMaterial(p: Primitives, r: Record): Option<Material> {
    match EvidenceSlots(p, r)
    case None => None
    case Some(evidence) =>
      if r.state == RESULT_COMMITTED then
        if r.committedAt.None? then None
        else if r.collection == ACKNOWLEDGED then
          if evidence != map[] || r.result.Some? || r.manifest.Some? then None
          else Some(Material(evidence, None))
        else if r.collection == NONE || r.result.None? || r.manifest.None? then None
        else
          match UnwrapResult(p, r.binding, r.result.value)
          case None => None
          case Some(json) =>
            if !ReferencesValid(p, r.binding, json, evidence) then None
            else if r.manifest.value != BuildManifest(p, r.binding, evidence.Keys, r.result.value) then None
            else Some(Material(evidence, Some(json)))
      else if r.collection != NONE || r.result.Some? || r.manifest.Some? || r.committedAt.Some?
              || (r.state != CLAIMED_ONCE && evidence != map[]) then
        None
      else
        Some(Material(evidence, None))
  }

  /** What it means that a record's material authenticates: every slot opens, and what the state calls for
      is there and fits together, the manifest included. */
  lemma ValidatedExactly(p: Primitives, r: Record)
    ensures ValidatedMaterial(p, r).Some? <==>
            && (forall slot | slot in r.evidence :: Unwrap(p, r.binding.mailboxId, slot, r.evidence[slot]).Some?)
            && if r.state != RESULT_COMMITTED then
                 && r.collection == NONE && r.result.None? && r.manifest.None? && r.committedAt.None?
                 && (r.state == CLAIMED_ONCE || r.evidence == map[])
               else
                 && r.committedAt.Some? && r.collection != NONE
                 && if r.collection == ACKNOWLEDGED then r.evidence == map[] && r.result.None? && r.manifest.None?
                    else
                      && r.result.Some? && r.manifest.Some? && EvidenceSlots(p, r).Some?
                      && UnwrapResult(p, r.binding, r.result.value).Some?
                      && ReferencesValid(p, r.binding, UnwrapResult(p, r.binding, r.result.value).value, EvidenceSlots(p, r).value)
                      && r.manifest.value == BuildManifest(p, r.binding, r.evidence.Keys, r.result.value)
  {
    hide Unwrap, UnwrapResult, ReferencesValid, BuildManifest;
    if EvidenceSlots(p, r).Some? {
      assert EvidenceSlots(p, r).value.Keys == r.evidence.Keys;
    }
  }

  // --- What the frames bind -------------------------------------------------------

  /** Evidence opens to an upload exactly if the item carries its own digest and MAC, and the box, opened
      for this mailbox, object, slot, kind and length, holds the object's identifier, the digest of the
      payload and the payload. */
  lemma UnwrapExactly(p: Primitives, mailboxId: Uuid, slot: Uuid, item: WrappedEvidence, u: EvidenceUpload)
    ensures Unwrap(p, mailboxId, slot, item) == Some(u) <==>
            && item.objectId == slot && u.objectId == slot && u.kind == item.kind && |u.payload| == item.byteCount
            && u.payloadDigest == p.hash(u.payload) && p.hash(item.wrapped) == item.storageDigest
            && var aad := EvidenceAad(mailboxId, slot, slot, item.kind, item.byteCount);
               var framed := Big(slot, 16) + u.payloadDigest + u.payload;
               p.open(item.nonce, item.wrapped, aad) == Some(framed) && p.mac(aad + framed) == item.semanticMac
  {
    hide EvidenceAad, Big;
    var framed := Big(slot, 16) + u.payloadDigest + u.payload;
    assert framed[..16] == Big(slot, 16) && framed[16..48] == u.payloadDigest && framed[48..] == u.payload;
    var aad := EvidenceAad(mailboxId, slot, slot, item.kind, item.byteCount);
    match p.open(item.nonce, item.wrapped, aad)
    case None =>
    case Some(found) =>
      if |found| >= 48 {
        assert found == found[..16] + found[16..48] + found[48..];
      }
  }

  /** The same of a result, which is bound to its mailbox's whole binding. */
  lemma UnwrapResultExactly(p: Primitives, b: ActionBinding, item: WrappedResult, json: Bytes)
    ensures UnwrapResult(p, b, item) == Some(json) <==>
            && json != [] && |json| == item.byteCount && p.hash(item.wrapped) == item.storageDigest
            && var aad := ResultAad(p, b, item.byteCount);
               var framed := BindingDigest(p, b) + p.hash(json) + json;
               p.open(item.nonce, item.wrapped, aad) == Some(framed) && p.mac(aad + framed) == item.semanticMac
  {
    hide ResultAad, BindingDigest;
    var framed := BindingDigest(p, b) + p.hash(json) + json;
    assert framed[..32] == BindingDigest(p, b) && framed[32..64] == p.hash(json) && framed[64..] == json;
    match p.open(item.nonce, item.wrapped, ResultAad(p, b, item.byteCount))
    case None =>
    case Some(found) =>
      if |found| >= 64 {
        assert found == found[..32] + found[32..64] + found[64..];
      }
  }

  lemma SplitTail(x: Bytes, tail: Bytes, x': Bytes, tail': Bytes)
    requires |tail| == |tail'|
    requires x + tail == x' + tail'
    ensures x == x' && tail == tail'
  {
    assert |x| == |x'|;
    SplitHead(x, tail, x', tail');
  }

  /** The associated data of evidence determines the mailbox, the object, the slot, the kind and the length. */
  lemma EvidenceAadInjective(m: Uuid, o: Uuid, s: Uuid, kind: Bytes, n: nat, m': Uuid, o': Uuid, s': Uuid, kind': Bytes, n': nat)
    requires n < Pow256(8) && n' < Pow256(8)
    requires EvidenceAad(m, o, s, kind, n) == EvidenceAad(m', o', s', kind', n')
    ensures m == m' && o == o' && s == s' && kind == kind' && n == n'
  {
    var head, head' := WRAP_CONTEXT + Big(m, 16) + Big(o, 16) + Big(s, 16), WRAP_CONTEXT + Big(m', 16) + Big(o', 16) + Big(s', 16);
    SplitTail(head + kind + [0], Big(n, 8), head' + kind' + [0], Big(n', 8));
    SplitTail(head + kind, [0], head' + kind', [0]);
    SplitHead(head, kind, head', kind');
    SplitTail(WRAP_CONTEXT + Big(m, 16) + Big(o, 16), Big(s, 16), WRAP_CONTEXT + Big(m', 16) + Big(o', 16), Big(s', 16));
    SplitTail(WRAP_CONTEXT + Big(m, 16), Big(o, 16), WRAP_CONTEXT + Big(m', 16), Big(o', 16));
    SplitTail(WRAP_CONTEXT, Big(m, 16), WRAP_CONTEXT, Big(m', 16));
    UuidBytesInjective(m, m');
    UuidBytesInjective(o, o');
    UuidBytesInjective(s, s');
    BigInjective(n, n', 8);
  }

  /** The associated data of a result determines the binding's digest and the length. */
  lemma ResultAadInjective(p: Primitives, b: ActionBinding, n: nat, b': ActionBinding, n': nat)
    requires n < Pow256(8) && n' < Pow256(8)
    requires ResultAad(p, b, n) == ResultAad(p, b', n')
    ensures BindingDigest(p, b) == BindingDigest(p, b') && n == n'
  {
    hide BindingDigest;
    SplitTail(RESULT_WRAP_CONTEXT + BindingDigest(p, b), Big(n, 8), RESULT_WRAP_CONTEXT + BindingDigest(p, b'), Big(n', 8));
    SplitTail(RESULT_WRAP_CONTEXT, BindingDigest(p, b), RESULT_WRAP_CONTEXT, BindingDigest(p, b'));
    BigInjective(n, n', 8);
  }

  /** Evidence and results are never boxed under the same associated data. */
  lemma AadsNeverMeet(p: Primitives, m: Uuid, o: Uuid, s: Uuid, kind: Bytes, n: nat, b: ActionBinding, n': nat)
    ensures EvidenceAad(m, o, s, kind, n) != ResultAad(p, b, n')
  {
    hide BindingDigest, Big;
    assert EvidenceAad(m, o, s, kind, n)[23] == WRAP_CONTEXT[23] && ResultAad(p, b, n')[23] == RESULT_WRAP_CONTEXT[23];
    assert WRAP_CONTEXT[23] == 101 && RESULT_WRAP_CONTEXT[23] == 114;
  }

  /** A manifest fits one binding, one stored result and one set of objects only, or else two texts with
      the same hash are at hand. */
  lemma ManifestBinds(p: Primitives, b: ActionBinding, ids: set<Uuid>, result: WrappedResult, b': ActionBinding, ids': set<Uuid>, result': WrappedResult)
    returns (x: Bytes, y: Bytes)
    requires BuildManifest(p, b, ids, result) == BuildManifest(p, b', ids', result')
    ensures (BindingFrame(p, b) == BindingFrame(p, b') && result.storageDigest == result'.storageDigest && ids == ids')
            || (x != y && p.hash(x) == p.hash(y))
  {
    hide ManifestFrame, BindingFrame;
    x, y := ManifestFrame(BindingDigest(p, b), result.storageDigest, ids), ManifestFrame(BindingDigest(p, b'), result'.storageDigest, ids');
    if x == y {
      ManifestFrameInjective(BindingDigest(p, b), result.storageDigest, ids, BindingDigest(p, b'), result'.storageDigest, ids');
      x, y := BindingFrame(p, b), BindingFrame(p, b');
    }
  }
}
