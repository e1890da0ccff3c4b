/** The durable adapter: every call loads one authenticated frame, takes one step of the
    mailbox machine, and atomically replaces the frame, or leaves it alone. */
module PersistentRepository {
  import opened Identifiers
  import opened MailboxDomain
  import opened MailboxCrypto
  import opened MailboxMachine
  import opened MailboxInvariant
  import opened PersistentCodec
  import opened VolatileRepository
  import opened MailboxAuthority
  import MailboxFates

  const MAX_FRAME_OVERHEAD := 8_388_608
  const MAX_FRAME_GENERATION := 100_000_000
  const FRAME_CONTEXT: Bytes := Ascii("mycogni.runner-mailbox.sqlite-frame.v1") + [0]

  /** What one installation is opened with. `lineage` is the installation epoch, the restore
      epoch and the configuration digest, in that order. */
  datatype Vault = Vault(
    c: Config,
    p: Primitives,
    dump: Json -> Bytes,
    loads: Bytes -> Option<Json>,
    sealFrame: (Nonce, Bytes, Bytes) -> Bytes,
    openFrame: (Nonce, Bytes, Bytes) -> Option<Bytes>,
    frameHash: Bytes -> Digest,
    lineage: Bytes)

  /** The outer AEAD decrypts what it encrypted, and the text form can be read back. */
  ghost predicate VaultSound(v: Vault) {
    && Sound(v.p)
    && (forall j :: v.loads(v.dump(j)) == Some(j) && v.dump(j) != [])
    && (forall n, t, a :: v.openFrame(n, v.sealFrame(n, t, a), a) == Some(t) && |v.sealFrame(n, t, a)| == |t| + TAG_BYTES)
  }

  datatype Frame = Frame(version: int, generation: int, nonce: Bytes, ciphertext: Bytes, digest: Bytes)

  function MaxSerialized(l: MailboxLimits): nat {
    l.maxActiveBytes + l.maxEvidenceBytes + l.maxCommittedBytes + MAX_FRAME_OVERHEAD
  }

  function FrameAad(v: Vault, generation: nat): Bytes {
    FRAME_CONTEXT + Big(FRAME_VERSION, 4) + Big(generation, 8) + v.lineage
  }

  function Serialized(v: Vault, s: Installation, t: Totals): Bytes {
    v.dump(EncodeState(s, t))
  }

  // --- Loading ---------------------------------------------------------------

  datatype Loaded = Loaded(generation: nat, saved: Saved)

  /** The checks on the stored row itself, before anything is decrypted. */
  predicate RowPlausible(v: Vault, f: Frame) {
    && f.version == FRAME_VERSION
    && 0 <= f.generation < MAX_FRAME_GENERATION
    && |f.nonce| == 12 && |f.digest| == 32
    && 0 < |f.ciphertext| <= MaxSerialized(v.c.limits) + TAG_BYTES
    && v.frameHash(f.ciphertext) == f.digest
  }

  /** Decryption under this generation and lineage, then the canonical decoder. */
  function Opened(v: Vault, f: Frame): Option<Saved>
    requires RowPlausible(v, f)
  {
    var serialized :- v.openFrame(f.nonce, f.ciphertext, FrameAad(v, f.generation));
    if serialized == [] || |serialized| > MaxSerialized(v.c.limits) then None
    else
      var j :- v.loads(serialized);
      if v.dump(j) != serialized then None
      else
        var saved :- DecodeState(v.c.limits, j);
        if serialized != Serialized(v, saved.state, saved.totals) then None else Some(saved)
  }

  /** What a row holds, or `None`, which is INTERNAL_UNCERTAINTY. */
  ghost function Load(v: Vault, f: Frame): Option<Loaded> {
    if !RowPlausible(v, f) then None
    else
      match Opened(v, f)
      case None => None
      case Some(saved) =>
        if exists id :: id in saved.state.records && ValidatedMaterial(v.p, saved.state.records[id]).None? then None
        else if !Semantics(v.c, saved.state, saved.totals) then None
        else Some(Loaded(f.generation, saved))
  }

  // --- Writing ---------------------------------------------------------------

  datatype Writing = Written(frame: Frame) | Unwritten(denial: Denial)

  function FrameOf(v: Vault, s: Installation, t: Totals, generation: nat, nonce: Nonce): Frame {
    var ciphertext := v.sealFrame(nonce, Serialized(v, s, t), FrameAad(v, generation));
    Frame(FRAME_VERSION, generation, nonce, ciphertext, v.frameHash(ciphertext))
  }

  ghost function Write(v: Vault, s: Installation, t: Totals, generation: nat, nonce: Nonce): Writing {
    if generation >= MAX_FRAME_GENERATION then Unwritten(INTERNAL_UNCERTAINTY)
    else if !Semantics(v.c, s, t) then Unwritten(INTERNAL_UNCERTAINTY)
    else if |Serialized(v, s, t)| > MaxSerialized(v.c.limits) then Unwritten(OVERSIZE)
    else Written(FrameOf(v, s, t, generation, nonce))
  }

  // --- One transition of one handle ------------------------------------------

  /** How the transaction starts: the write lock is taken, the database is busy, or it fails. */
  datatype Begin = Began | Busy | Broken

  /** How it ends: committed, or failed with the old or the new frame on disk. */
  datatype Ending = Durable | LostOld | LostNew

  datatype Io = Io(begin: Begin, nonce: Nonce, ending: Ending)

  datatype Transition = Transition(frame: Option<Frame>, poisoned: bool, reply: Reply)

  function Uncertain(frame: Option<Frame>): Transition {
    Transition(frame, true, Denied(INTERNAL_UNCERTAINTY))
  }

  /** A reply reaches the caller; INTERNAL_UNCERTAINTY also poisons the handle. */
  function Replied(frame: Option<Frame>, reply: Reply): Transition {
    Transition(frame, reply == Denied(INTERNAL_UNCERTAINTY), reply)
  }

  ghost function HandleStep(v: Vault, frame: Option<Frame>, poisoned: bool, q: Request, io: Io): Transition {
    if poisoned then Uncertain(frame)
    else if io.begin.Busy? then Replied(frame, Denied(CONTENDED))
    else if io.begin.Broken? || frame.None? then Uncertain(frame)
    else
      match Load(v, frame.value)
      case None => Uncertain(frame)
      case Some(loaded) =>
        var s := loaded.saved.state;
        var taken := Step(v.c, v.p, s, q);
        var totals := TotalsOf(taken.after.records);
        if taken.reply.Fault? then Uncertain(frame)
        else if Serialized(v, taken.after, totals) == Serialized(v, s, loaded.saved.totals) then
          if io.ending.Durable? then Replied(frame, taken.reply) else Uncertain(frame)
        else
          match Write(v, taken.after, totals, loaded.generation + 1, io.nonce)
          case Unwritten(denial) => Replied(frame, Denied(denial))
          case Written(next) =>
            match io.ending
            case Durable => Replied(Some(next), taken.reply)
            case LostOld => Uncertain(frame)
            case LostNew => Uncertain(Some(next))
  }

  datatype Opening = Opening(frame: Option<Frame>, live: bool)

  /** Opening a handle: an absent row is written as the empty installation at generation zero,
      a present one has to load. Any failure means that there is no handle. */
  ghost function OpenStep(v: Vault, frame: Option<Frame>, io: Io): Opening {
    if !io.begin.Began? then Opening(frame, false)
    else if frame.None? then
      match Write(v, EMPTY_INSTALLATION, Totals(0, 0, 0), 0, io.nonce)
      case Unwritten(_) => Opening(frame, false)
      case Written(first) => Opening(if io.ending.LostOld? then frame else Some(first), io.ending.Durable?)
    else
      Opening(frame, Load(v, frame.value).Some? && io.ending.Durable?)
  }

  // --- What a load accepts ---------------------------------------------------

  lemma {:induction false} IndexedSize<T>(items: seq<Json>, k: nat, decode: Json -> Option<(Uuid, T)>, reserved: set<Uuid>)
    requires k <= |items| && Indexed(items, k, decode, reserved).Some?
    ensures |Indexed(items, k, decode, reserved).value.Keys| == k
    ensures Indexed(items, k, decode, reserved).value.Keys !! reserved
  {
    if k > 0 {
      IndexedSize(items, k - 1, decode, reserved);
      var before, entry := Indexed(items, k - 1, decode, reserved).value, decode(items[k - 1]).value;
      assert Indexed(items, k, decode, reserved).value.Keys == before.Keys + {entry.0};
    }
  }

  /** Every entry of the dictionary was decoded from some item, under its own identifier. */
  lemma {:induction false} IndexedEntry<T>(items: seq<Json>, k: nat, decode: Json -> Option<(Uuid, T)>, reserved: set<Uuid>, id: Uuid) returns (i: nat)
    requires k <= |items| && Indexed(items, k, decode, reserved).Some?
    requires id in Indexed(items, k, decode, reserved).value
    ensures i < k && decode(items[i]) == Some((id, Indexed(items, k, decode, reserved).value[id]))
  {
    if decode(items[k - 1]).value.0 == id {
      i := k - 1;
    } else {
      i := IndexedEntry(items, k - 1, decode, reserved, id);
    }
  }

  lemma DecodedUnderOwnKey(l: MailboxLimits, j: Json)
    requires DecodeRecord(l, j).Some?
    ensures DecodeRecord(l, j).value.0 == DecodeRecord(l, j).value.1.binding.mailboxId
  {
    hide DecodeSlots, DecodeBinding, DecodeResult, DecodeManifest, StateOf, CollectionOf, OptionalData, OptionalDigest, OptionalTime, DigestOf, TimeOf;
  }

  lemma RecordsUnderOwnKeys(l: MailboxLimits, items: seq<Json>)
    requires Indexed(items, |items|, RecordDecoder(l), {}).Some?
    ensures var m := Indexed(items, |items|, RecordDecoder(l), {}).value;
            |m| == |items| && forall id | id in m :: m[id].binding.mailboxId == id
  {
    hide Indexed, DecodeRecord;
    IndexedSize(items, |items|, RecordDecoder(l), {});
    var m := Indexed(items, |items|, RecordDecoder(l), {}).value;
    forall id | id in m ensures m[id].binding.mailboxId == id {
      var i := IndexedEntry(items, |items|, RecordDecoder(l), {}, id);
      DecodedUnderOwnKey(l, items[i]);
    }
  }

  lemma DecodedIsWellKeyed(c: Config, j: Json)
    requires DecodeState(c.limits, j).Some?
    ensures WellKeyed(c, DecodeState(c.limits, j).value.state)
  {
    hide Indexed, DecodeRecord, DecodeTombstone, OptionalTime, CountOf;
    RecordsUnderOwnKeys(c.limits, j.fields[RECORDS].items);
    var tombstones := j.fields[TOMBSTONES].items;
    var records := Indexed(j.fields[RECORDS].items, |j.fields[RECORDS].items|, RecordDecoder(c.limits), {}).value;
    IndexedSize(tombstones, |tombstones|, TombstoneDecoder(), records.Keys);
  }

  /** Every frame a load accepts holds a state that satisfies the whole invariant. */
  lemma LoadedInv(v: Vault, f: Frame)
    requires Load(v, f).Some?
    ensures Inv(v.c, v.p, Load(v, f).value.saved.state)
    ensures Load(v, f).value.saved.totals == TotalsOf(Load(v, f).value.saved.state.records)
    ensures Load(v, f).value.generation == f.generation
  {
    hide DecodeState, WellKeyed, RecordSemantics, CredentialsDistinct, ValidatedMaterial, TotalsOf, WithinQuota, TombstoneSemantics, FrameAad;
    var j := v.loads(v.openFrame(f.nonce, f.ciphertext, FrameAad(v, f.generation)).value).value;
    DecodedIsWellKeyed(v.c, j);
  }

  // --- What a write produces -------------------------------------------------

  lemma InvSemantics(c: Config, p: Primitives, s: Installation)
    requires Inv(c, p, s)
    ensures Semantics(c, s, TotalsOf(s.records)) && WellKeyed(c, s)
    ensures !exists id :: id in s.records && ValidatedMaterial(p, s.records[id]).None?
  {
    hide Semantics, WellKeyed, ValidatedMaterial, TotalsOf;
  }

  /** In a state the protocol can reach, a write is never refused on semantic grounds: only
      the generation limit and the size of the serialized frame can refuse it. */
  lemma WriteRefusedOnlyForSize(v: Vault, s: Installation, generation: nat, nonce: Nonce)
    requires Inv(v.c, v.p, s)
    ensures Write(v, s, TotalsOf(s.records), generation, nonce) ==
              if generation >= MAX_FRAME_GENERATION then Unwritten(INTERNAL_UNCERTAINTY)
              else if |Serialized(v, s, TotalsOf(s.records))| > MaxSerialized(v.c.limits) then Unwritten(OVERSIZE)
              else Written(FrameOf(v, s, TotalsOf(s.records), generation, nonce))
  {
    hide Inv, Semantics, TotalsOf, FrameOf, Serialized;
    InvSemantics(v.c, v.p, s);
  }

  lemma MaterialOwnSlots(p: Primitives, r: Record)
    requires ValidatedMaterial(p, r).Some?
    ensures OwnSlots(r)
  {
    hide UnwrapResult, ReferencesValid, BuildManifest, EvidenceAad;
  }

  lemma InvSelfKeyed(c: Config, p: Primitives, s: Installation)
    requires Inv(c, p, s)
    ensures SelfKeyed(s)
  {
    hide ValidatedMaterial, Semantics, OwnSlots;
    forall id | id in s.records ensures OwnSlots(s.records[id]) {
      MaterialOwnSlots(p, s.records[id]);
    }
  }

  /** A frame this vault could have written for this state. */
  ghost predicate WritableFrame(v: Vault, f: Frame, s: Installation) {
    && 0 <= f.generation < MAX_FRAME_GENERATION && |f.nonce| == 12
    && |Serialized(v, s, TotalsOf(s.records))| <= MaxSerialized(v.c.limits)
    && f == FrameOf(v, s, TotalsOf(s.records), f.generation, f.nonce)
  }

  lemma OpenedWritten(v: Vault, f: Frame, s: Installation)
    requires VaultSound(v) && WritableFrame(v, f, s)
    requires SelfKeyed(s) && WellKeyed(v.c, s)
    ensures RowPlausible(v, f)
    ensures Opened(v, f) == if AllFit(v.c.limits, s) then Some(Saved(s, TotalsOf(s.records))) else None
  {
    var t := TotalsOf(s.records);
    hide Sound, EncodeState, DecodeState, FrameAad, TotalsOf, SelfKeyed, AllFit, WellKeyed, Indexed;
    WellKeyedCounts(v.c, s);
    StateRoundTripExactly(v.c.limits, s, t);
    assert v.loads(v.dump(EncodeState(s, t))) == Some(EncodeState(s, t)) && v.dump(EncodeState(s, t)) != [];
  }

  lemma WellKeyedCounts(c: Config, s: Installation)
    requires WellKeyed(c, s)
    ensures |s.records| <= c.limits.maxMailboxes && |s.tombstones| <= c.limits.maxTombstones
  {
  }

  /** Whatever a write produced loads back to the same state and totals, exactly when every
      record is within the byte bounds of the decoder; otherwise it no longer loads at all. */
  lemma LoadWrittenExactly(v: Vault, f: Frame, s: Installation)
    requires VaultSound(v) && Inv(v.c, v.p, s) && WritableFrame(v, f, s)
    ensures Load(v, f) == if AllFit(v.c.limits, s) then Some(Loaded(f.generation, Saved(s, TotalsOf(s.records)))) else None
  {
    hide VaultSound, Inv, Semantics, WellKeyed, SelfKeyed, WritableFrame, RowPlausible, Opened, ValidatedMaterial, TotalsOf, AllFit;
    InvSemantics(v.c, v.p, s);
    InvSelfKeyed(v.c, v.p, s);
    OpenedWritten(v, f, s);
  }

  // --- One transition refines one step ---------------------------------------

  lemma SerializedInjective(v: Vault, s: Installation, s': Installation)
    requires VaultSound(v) && Inv(v.c, v.p, s) && Inv(v.c, v.p, s')
    requires Serialized(v, s, TotalsOf(s.records)) == Serialized(v, s', TotalsOf(s'.records))
    ensures s == s'
  {
    hide Sound, Inv, TotalsOf, EncodeState, SelfKeyed;
    var j, j' := EncodeState(s, TotalsOf(s.records)), EncodeState(s', TotalsOf(s'.records));
    assert v.loads(v.dump(j)) == Some(j) && v.loads(v.dump(j')) == Some(j');
    InvSelfKeyed(v.c, v.p, s);
    InvSelfKeyed(v.c, v.p, s');
    StateInjective(s, TotalsOf(s.records), s', TotalsOf(s'.records));
  }

  /** What the adapter's own refusals look like. */
  predicate Refusal(reply: Reply) {
    reply == Denied(CONTENDED) || reply == Denied(OVERSIZE) || reply == Denied(INTERNAL_UNCERTAINTY)
  }

  /** From a frame written for `s`, a transition either leaves the frame alone and refuses, or
      takes exactly one step of the mailbox machine: the reply is that step's reply or was lost,
      and the frame holds the new state one generation later, or is untouched if nothing changed. */
  ghost predicate Refines(v: Vault, s: Installation, f: Frame, q: Request, s': Installation, t: Transition) {
    && t.frame.Some? && WritableFrame(v, t.frame.value, s')
    && ((s' == s && t.frame.value == f && Refusal(t.reply))
        || (s' == Step(v.c, v.p, s, q).after
            && (t.reply == Step(v.c, v.p, s, q).reply || t.reply == Denied(INTERNAL_UNCERTAINTY))
            && t.frame.value.generation == (if s' == s then f.generation else f.generation + 1)
            && (s' == s ==> t.frame.value == f)))
  }

  lemma TransitionRefines(v: Vault, s: Installation, f: Frame, poisoned: bool, q: Request, io: Io) returns (s': Installation)
    requires VaultSound(v) && Inv(v.c, v.p, s) && WritableFrame(v, f, s)
    ensures Inv(v.c, v.p, s')
    ensures Refines(v, s, f, q, s', HandleStep(v, Some(f), poisoned, q, io))
  {
    hide Inv, Step, Load, Write, TotalsOf, Serialized, WritableFrame, AllFit, VaultSound;
    s' := s;
    LoadWrittenExactly(v, f, s);
    if !poisoned && io.begin.Began? && Load(v, f).Some? {
      var after, next := Step(v.c, v.p, s, q).after, Write(v, Step(v.c, v.p, s, q).after, TotalsOf(Step(v.c, v.p, s, q).after.records), f.generation + 1, io.nonce);
      SoundInside(v);
      StepKeepsInv(v.c, v.p, s, q);
      GenerationOf(v, f, s);
      WriteRefusedOnlyForSize(v, after, f.generation + 1, io.nonce);
      if Serialized(v, after, TotalsOf(after.records)) == Serialized(v, s, TotalsOf(s.records)) {
        SerializedInjective(v, s, after);
      } else if next.Written? {
        WrittenIsWritable(v, after, f.generation + 1, io.nonce);
        if io.ending != LostOld && !Step(v.c, v.p, s, q).reply.Fault? {
          s' := after;
        }
      }
    }
  }

  /** There is a generation left for the next frame and it is within the size limit. */
  predicate Saveable(v: Vault, generation: int, s: Installation) {
    0 <= generation < MAX_FRAME_GENERATION && |Serialized(v, s, TotalsOf(s.records))| <= MaxSerialized(v.c.limits)
  }

  lemma NextWritten(v: Vault, s: Installation, f: Frame, q: Request, nonce: Nonce)
    requires VaultSound(v) && Inv(v.c, v.p, s) && WritableFrame(v, f, s)
    ensures var after, generation := Step(v.c, v.p, s, q).after, f.generation + 1;
            && generation >= 0
            && var w := Write(v, after, TotalsOf(after.records), generation, nonce);
            && (Saveable(v, generation, after) ==> w.Written? && WritableFrame(v, w.frame, after) && w.frame.generation == generation)
            && (!Saveable(v, generation, after) ==> w == Unwritten(if generation >= MAX_FRAME_GENERATION then INTERNAL_UNCERTAINTY else OVERSIZE))
  {
    hide Sound, Inv, Step, Write, TotalsOf, Serialized, FrameOf;
    var after := Step(v.c, v.p, s, q).after;
    SoundInside(v);
    StepKeepsInv(v.c, v.p, s, q);
    WriteRefusedOnlyForSize(v, after, f.generation + 1, nonce);
    if Saveable(v, f.generation + 1, after) {
      WrittenIsWritable(v, after, f.generation + 1, nonce);
    }
  }

  lemma SerializedMeansSame(v: Vault, s: Installation, q: Request)
    requires VaultSound(v) && Inv(v.c, v.p, s)
    ensures var after := Step(v.c, v.p, s, q).after;
            Serialized(v, after, TotalsOf(after.records)) == Serialized(v, s, TotalsOf(s.records)) <==> after == s
  {
    hide Sound, Inv, Step, TotalsOf, Serialized;
    SoundInside(v);
    StepKeepsInv(v.c, v.p, s, q);
    var after := Step(v.c, v.p, s, q).after;
    if Serialized(v, after, TotalsOf(after.records)) == Serialized(v, s, TotalsOf(s.records)) {
      SerializedInjective(v, s, after);
    }
  }

  /** A healthy call is answered: on a free database, with an unpoisoned handle and a durable commit, a
      step that gives a result and whose state can be saved reaches its caller as it is, the frame
      holds its state, and the handle stays usable unless that very answer is uncertain. */
  lemma HealthyTransitionAnswers(v: Vault, s: Installation, f: Frame, q: Request, io: Io)
    requires VaultSound(v) && Inv(v.c, v.p, s) && WritableFrame(v, f, s) && AllFit(v.c.limits, s)
    requires io.begin.Began? && io.ending.Durable? && !Step(v.c, v.p, s, q).reply.Fault?
    requires Step(v.c, v.p, s, q).after == s || Saveable(v, f.generation + 1, Step(v.c, v.p, s, q).after)
    ensures var taken, t := Step(v.c, v.p, s, q), HandleStep(v, Some(f), false, q, io);
            && t.reply == taken.reply
            && t.frame.Some? && WritableFrame(v, t.frame.value, taken.after)
            && (taken.after == s ==> t.frame == Some(f))
            && (taken.after != s ==> t.frame.value.generation == f.generation + 1)
            && (t.poisoned <==> taken.reply == Denied(INTERNAL_UNCERTAINTY))
  {
    hide Sound, VaultSound, Inv, Step, Load, Write, TotalsOf, Serialized, WritableFrame, AllFit, Saveable;
    LoadWrittenExactly(v, f, s);
    GenerationOf(v, f, s);
    SerializedMeansSame(v, s, q);
    NextWritten(v, s, f, q, io.nonce);
  }

  /** What a call is told when something is in the way, and what is left of it: each obstacle has its
      own answer, and only a lost commit can leave more than the old frame. */
  lemma ObstructedTransitionAnswers(v: Vault, s: Installation, f: Frame, q: Request, io: Io)
    requires VaultSound(v) && Inv(v.c, v.p, s) && WritableFrame(v, f, s) && AllFit(v.c.limits, s)
    ensures var taken, t := Step(v.c, v.p, s, q), HandleStep(v, Some(f), false, q, io);
            && (io.begin.Busy? ==> t.frame == Some(f) && !t.poisoned && t.reply == Denied(CONTENDED))
            && (io.begin.Broken? || (io.begin.Began? && taken.reply.Fault?) ==>
                  t.frame == Some(f) && t.poisoned && t.reply == Denied(INTERNAL_UNCERTAINTY))
            && (io.begin.Began? && !taken.reply.Fault? && taken.after != s && !Saveable(v, f.generation + 1, taken.after) ==>
                  && t.frame == Some(f)
                  && t.reply == Denied(if f.generation + 1 >= MAX_FRAME_GENERATION then INTERNAL_UNCERTAINTY else OVERSIZE))
            && (io.begin.Began? && !taken.reply.Fault? && (taken.after == s || Saveable(v, f.generation + 1, taken.after)) && !io.ending.Durable? ==>
                  && t.poisoned && t.reply == Denied(INTERNAL_UNCERTAINTY)
                  && t.frame.Some? && WritableFrame(v, t.frame.value, if io.ending.LostNew? then taken.after else s))
  {
    hide Sound, VaultSound, Inv, Step, Load, Write, TotalsOf, Serialized, WritableFrame, AllFit, Saveable;
    LoadWrittenExactly(v, f, s);
    GenerationOf(v, f, s);
    SerializedMeansSame(v, s, q);
    NextWritten(v, s, f, q, io.nonce);
  }

  /** A healthy opening gives a handle: over an absent row whenever the empty installation can be
      saved, over a row whenever that row loads. */
  lemma HealthyOpeningSucceeds(v: Vault, frame: Option<Frame>, io: Io)
    requires VaultSound(v) && io.begin.Began? && io.ending.Durable?
    ensures frame.None? ==> (OpenStep(v, frame, io).live <==> Saveable(v, 0, EMPTY_INSTALLATION))
    ensures forall s | frame.Some? && Inv(v.c, v.p, s) && WritableFrame(v, frame.value, s) && AllFit(v.c.limits, s) :: OpenStep(v, frame, io).live
  {
    hide Sound, VaultSound, Inv, Load, Write, Serialized, WritableFrame, AllFit, FrameOf;
    assert TotalsOf(map[]) == Totals(0, 0, 0) by {
      NothingToSum(map[]);
    }
    EmptyInv(v.c, v.p);
    WriteRefusedOnlyForSize(v, EMPTY_INSTALLATION, 0, io.nonce);
    forall s | frame.Some? && Inv(v.c, v.p, s) && WritableFrame(v, frame.value, s) && AllFit(v.c.limits, s) ensures OpenStep(v, frame, io).live {
      GenerationOf(v, frame.value, s);
      LoadWrittenExactly(v, frame.value, s);
    }
  }

  /** What loads is authentic: an intact row of this version, decrypted under its own generation and
      this vault's lineage to exactly the canonical text of the state it yields. */
  lemma LoadedIsAuthentic(v: Vault, f: Frame)
    requires Load(v, f).Some?
    ensures var saved := Load(v, f).value.saved;
            && f.version == FRAME_VERSION && 0 <= f.generation < MAX_FRAME_GENERATION
            && v.frameHash(f.ciphertext) == f.digest && |f.nonce| == 12
            && v.openFrame(f.nonce, f.ciphertext, FrameAad(v, f.generation)) == Some(v.dump(EncodeState(saved.state, saved.totals)))
            && |v.dump(EncodeState(saved.state, saved.totals))| <= MaxSerialized(v.c.limits)
  {
    hide DecodeState, EncodeState, Semantics, ValidatedMaterial, FrameAad;
  }

  /** The data a frame is bound to determines its generation and the lineage of its vault. */
  lemma FrameAadInjective(v: Vault, v': Vault, generation: nat, generation': nat)
    requires generation < MAX_FRAME_GENERATION && generation' < MAX_FRAME_GENERATION
    requires FrameAad(v, generation) == FrameAad(v', generation')
    ensures generation == generation' && v.lineage == v'.lineage
  {
    hide Big;
    var head := FRAME_CONTEXT + Big(FRAME_VERSION, 4);
    assert FrameAad(v, generation) == head + (Big(generation, 8) + v.lineage);
    assert FrameAad(v', generation') == head + (Big(generation', 8) + v'.lineage);
    SplitHead(head, Big(generation, 8) + v.lineage, head, Big(generation', 8) + v'.lineage);
    SplitHead(Big(generation, 8), v.lineage, Big(generation', 8), v'.lineage);
    EightBytesSuffice();
    BigInjective(generation, generation', 8);
  }

  lemma EightBytesSuffice()
    ensures MAX_FRAME_GENERATION <= Pow256(8)
  {
    assert Pow256(8) == 256 * Pow256(7);
    assert Pow256(4) == 0x1_0000_0000;
  }

  /** Opening writes nothing over an existing frame; over an absent one, the empty installation. */
  lemma OpenRefines(v: Vault, frame: Option<Frame>, io: Io)
    ensures var t := OpenStep(v, frame, io);
            && (frame.Some? ==> t.frame == frame)
            && (t.live ==> t.frame.Some?)
            && (frame.None? && t.frame.Some? ==> WritableFrame(v, t.frame.value, EMPTY_INSTALLATION) && t.frame.value.generation == 0)
  {
    hide Load, Serialized, FrameOf;
    assert TotalsOf(map[]) == Totals(0, 0, 0) by {
      NothingToSum(map[]);
    }
    if frame.None? && OpenStep(v, frame, io).frame.Some? {
      WrittenIsWritable(v, EMPTY_INSTALLATION, 0, io.nonce);
    }
  }

  lemma SoundInside(v: Vault)
    requires VaultSound(v)
    ensures Sound(v.p)
  {
    hide Sound;
  }

  lemma GenerationOf(v: Vault, f: Frame, s: Installation)
    requires WritableFrame(v, f, s)
    ensures f.generation >= 0
  {
  }

  lemma WrittenIsWritable(v: Vault, s: Installation, generation: nat, nonce: Nonce)
    requires generation < MAX_FRAME_GENERATION && |Serialized(v, s, TotalsOf(s.records))| <= MaxSerialized(v.c.limits)
    ensures WritableFrame(v, FrameOf(v, s, TotalsOf(s.records), generation, nonce), s)
    ensures FrameOf(v, s, TotalsOf(s.records), generation, nonce).generation == generation
  {
    hide Serialized, TotalsOf, FrameAad;
  }

  /** A handle is poisoned by a transition exactly when its caller is told INTERNAL_UNCERTAINTY,
      and a poisoned handle never touches the frame again. */
  lemma PoisonedExactlyWhenUncertain(v: Vault, frame: Option<Frame>, poisoned: bool, q: Request, io: Io)
    ensures var t := HandleStep(v, frame, poisoned, q, io);
            && (t.poisoned <==> t.reply == Denied(INTERNAL_UNCERTAINTY))
            && (poisoned ==> t.poisoned && t.frame == frame)
  {
    hide Load, Write, Step, Serialized, TotalsOf;
  }

  /** Contention, an oversized frame and the generation limit leave the stored frame as it was: the
      two denials are the adapter's own, and a frame only changes under an unpoisoned handle with a
      started transaction, by one generation. */
  lemma RefusalsKeepTheFrame(v: Vault, frame: Option<Frame>, poisoned: bool, q: Request, io: Io)
    ensures var t := HandleStep(v, frame, poisoned, q, io);
            && (t.reply == Denied(OVERSIZE) || t.reply == Denied(CONTENDED) ==> t.frame == frame)
            && (frame.Some? && frame.value.generation + 1 >= MAX_FRAME_GENERATION ==> t.frame == frame)
            && (t.frame != frame ==> io.begin.Began? && !poisoned && frame.Some? && io.ending != LostOld
                                     && t.frame.Some? && t.frame.value.generation == frame.value.generation + 1
                                     && t.frame.value.generation < MAX_FRAME_GENERATION)
  {
    hide Step, Serialized, TotalsOf, Semantics, FrameAad, Opened, ValidatedMaterial;
    if frame.Some? && Load(v, frame.value).Some? {
      MailboxFates.StepNeverContends(v.c, v.p, Load(v, frame.value).value.saved.state, q);
    }
  }

  // --- Byte bounds -----------------------------------------------------------

  /** What the callers of the repository keep to: the bounds of the action, and the bound the
      decoder puts on a wrapped result. */
  predicate WellSized(op: Op) {
    match op
    case Offer(_, envelope, actionKey, _, _, resultCredential, _) => ActionFits(envelope, actionKey, resultCredential)
    case Commit(_, _, resultJson, _, _) => |resultJson| + 80 <= MAX_WRAPPED_RESULT
    case _ => true
  }

  predicate MoveSized(move: Move) {
    match move
    case Offering(envelope, actionKey, resultCredential, _) => ActionFits(envelope, actionKey, resultCredential)
    case Committing(json, _) => |json| + 80 <= MAX_WRAPPED_RESULT
    case _ => true
  }

  predicate EffectSized(effect: Effect) {
    effect.Movement? ==> MoveSized(effect.move)
  }

  lemma MovedFits(c: Config, p: Primitives, s: Installation, r: Record, move: Move, now: Instant)
    requires Sound(p) && (MoveAllowed(c, p, s, r, move, now) || move.Observing?)
    requires RecordFits(c.limits, r) && (move.Staging? ==> |r.evidence| < MAX_EVIDENCE_ITEMS)
    ensures RecordFits(c.limits, Moved(p, r, move, now)) <==> MoveSized(move)
  {
    hide ValidatedMaterial, Unwrap, EvidenceAad, BuildManifest, ReferencesValid, InUse, SumOver, ResultAad, BindingDigest, DueNow;
  }

  lemma StepFitsByEffect(c: Config, p: Primitives, s: Installation, q: Request)
    requires Sound(p) && Inv(c, p, s) && AllFit(c.limits, s)
    ensures AllFit(c.limits, Step(c, p, s, q).after) <==> EffectSized(Decide(c, p, s, q).effect)
  {
    hide Sound, Inv, RecordFits, Decide, Moved, MoveAllowed, CreationAllowed, SweepAllowed, Put, SweptAll, CollectedAll, MoveSized;
    DecisionAllowed(c, p, s, q);
    InvSelfKeyed(c, p, s);
    match Decide(c, p, s, q).effect
    case Nothing =>
    case Creation(r, now) => CreationFits(c, s, r, now);
    case Movement(id, move, now) => MovementFits(c, p, s, id, move, now);
    case Sweeping(now) => SweepingFitsBounds(c, p, s, now);
    case Collecting(now) => CollectingFitsBounds(c, p, s, now);
  }

  /** The call is an offer or a commit that gets through, so that its material is retained. */
  predicate TakesMaterial(c: Config, p: Primitives, s: Installation, q: Request) {
    match q.op
    case Offer(_, _, _, _, _, _, _) => OfferGuard(c, s, q.op, q.clock)
    case Commit(_, _, _, _, _) => CommitGuard(c, p, s, q.op, q.clock) && BEFORE_RESULT_COMMIT !in q.crashes
    case _ => false
  }

  lemma EffectSizedExactly(c: Config, p: Primitives, s: Installation, q: Request)
    requires Inv(c, p, s)
    ensures EffectSized(Decide(c, p, s, q).effect) <==> !(TakesMaterial(c, p, s, q) && !WellSized(q.op))
  {
    hide Inv, Decide, OfferGuard, CommitGuard, ActionFits;
    SizedByOp(c, p, s, q);
    if q.op.Offer? {
      OfferSucceedsExactly(c, p, s, q);
    } else if q.op.Commit? {
      CommitSucceedsExactly(c, p, s, q);
    }
  }

  /** A step leaves a loadable state unloadable exactly when it is an offer or a commit that passes
      its guard and carries material outside the bounds; callers that keep to the bounds never do it. */
  lemma StepKeepsFitExactly(c: Config, p: Primitives, s: Installation, q: Request)
    requires Sound(p) && Inv(c, p, s) && AllFit(c.limits, s)
    ensures AllFit(c.limits, Step(c, p, s, q).after) <==> !(TakesMaterial(c, p, s, q) && !WellSized(q.op))
  {
    hide Sound, Inv, AllFit, EffectSized, TakesMaterial, WellSized, Step, Decide;
    StepFitsByEffect(c, p, s, q);
    EffectSizedExactly(c, p, s, q);
  }

  /** What a commit to the database leaves behind: a changed frame loads again exactly unless the call
      got through with material outside the bounds. */
  lemma ChangedFrameLoadsExactly(v: Vault, s: Installation, f: Frame, q: Request, io: Io)
    requires VaultSound(v) && Inv(v.c, v.p, s) && WritableFrame(v, f, s) && AllFit(v.c.limits, s)
    requires HandleStep(v, Some(f), false, q, io).frame != Some(f)
    ensures HandleStep(v, Some(f), false, q, io).frame.Some?
    ensures Load(v, HandleStep(v, Some(f), false, q, io).frame.value).Some? <==> !(TakesMaterial(v.c, v.p, s, q) && !WellSized(q.op))
  {
    hide VaultSound, Sound, Inv, WritableFrame, AllFit, Load, HandleStep, Step, TakesMaterial, WellSized, Serialized, TotalsOf;
    SoundInside(v);
    StepKeepsFitExactly(v.c, v.p, s, q);
    var s' := TransitionRefines(v, s, f, false, q, io);
    var f' := HandleStep(v, Some(f), false, q, io).frame.value;
    LoadWrittenExactly(v, f', s');
  }

  lemma CreationFits(c: Config, s: Installation, r: Record, now: Instant)
    requires AllFit(c.limits, s) && CreationAllowed(c, s, r, now)
    ensures AllFit(c.limits, Put(s, r, now))
  {
    hide InUse, RecordFits;
    NewRecordFits(c.limits, r.binding, now, r.actionDigest, r.claimDigest, r.collectionDigest);
  }

  lemma NewRecordFits(l: MailboxLimits, binding: ActionBinding, now: Instant, action: Digest, claim: Digest, collection: Digest)
    ensures RecordFits(l, NewRecord(binding, now, action, claim, collection))
  {
  }

  lemma MovementFits(c: Config, p: Primitives, s: Installation, id: Uuid, move: Move, now: Instant)
    requires Sound(p) && AllFit(c.limits, s) && SelfKeyed(s) && Enabled(c, p, s, id, move, now)
    ensures AllFit(c.limits, Put(s, Moved(p, s.records[id], move, now), now)) <==> MoveSized(move)
  {
    hide Sound, RecordFits, MoveSized, OwnSlots, MoveAllowed, Moved;
    StagingLeavesRoom(c, p, s, s.records[id], move, now);
    MovedFits(c, p, s, s.records[id], move, now);
    MovedKeepsBinding(p, s.records[id], move, now);
    PutFits(c.limits, s, Moved(p, s.records[id], move, now), now);
  }

  lemma PutFits(l: MailboxLimits, s: Installation, r: Record, now: Instant)
    requires AllFit(l, s)
    ensures AllFit(l, Put(s, r, now)) <==> RecordFits(l, r)
  {
    hide RecordFits;
    var id := r.binding.mailboxId;
    assert id in Put(s, r, now).records && Put(s, r, now).records[id] == r;
  }

  lemma StagingLeavesRoom(c: Config, p: Primitives, s: Installation, r: Record, move: Move, now: Instant)
    requires MoveAllowed(c, p, s, r, move, now)
    ensures move.Staging? ==> |r.evidence| < MAX_EVIDENCE_ITEMS
  {
    hide ValidatedMaterial, Unwrap, Wrap, SumOver, EvidenceBytes, DueNow;
  }

  lemma ObservedFits(c: Config, p: Primitives, s: Installation, r: Record, expiring: bool, now: Instant)
    requires Sound(p) && RecordFits(c.limits, r)
    requires expiring ==> DueNow(r, now)
    ensures RecordFits(c.limits, Moved(p, r, if expiring then Expiry else Observing, now))
  {
    hide RecordFits, Sound, Moved, DueNow;
    MovedFits(c, p, s, r, if expiring then Expiry else Observing, now);
  }

  lemma SweepingFitsBounds(c: Config, p: Primitives, s: Installation, now: Instant)
    requires Sound(p) && AllFit(c.limits, s)
    ensures AllFit(c.limits, SweptAll(p, s, now))
  {
    hide Sound, RecordFits, Moved, DueNow;
    forall id | id in s.records ensures RecordFits(c.limits, SweptRecord(p, s.records[id], now)) {
      ObservedFits(c, p, s, s.records[id], DueNow(s.records[id], now), now);
    }
  }

  lemma CollectingFitsBounds(c: Config, p: Primitives, s: Installation, now: Instant)
    requires Sound(p) && AllFit(c.limits, s)
    ensures AllFit(c.limits, CollectedAll(c, s, now))
  {
    hide Sound, RecordFits, Removed, LiveTombstones;
    forall id | id in s.records ensures RecordFits(c.limits, s.records[id].(lastSeen := now)) {
      ObservedFits(c, p, s, s.records[id], false, now);
    }
  }

  lemma SizedByOp(c: Config, p: Primitives, s: Installation, q: Request)
    ensures WellSized(q.op) ==> EffectSized(Decide(c, p, s, q).effect)
  {
    hide ValidatedMaterial, Moved, DueNow, InUse, SumOver, Unwrap, Wrap, ReferencesValid, SealsMatch, SealIds, BundleFits, ActionFits,
      ViewOf, Removed, NewlyExpired, SweepNow, AdmitOffer, AdmitClaim, AdmitResult, AdmitCollector, EvidenceBytes;
  }

  // --- The global checks as the adapter runs them ----------------------------

  /** The digests seen so far: maintenance and those of the records already checked. */
  ghost predicate Observed(c: Config, records: map<Uuid, Record>, rest: set<Uuid>, observed: set<Digest>) {
    forall d :: d in observed <==> d == c.maintenance || exists id :: id in records && id !in rest && d in Credentials(records[id])
  }

  ghost predicate DistinctSoFar(c: Config, records: map<Uuid, Record>, rest: set<Uuid>) {
    && (forall id | id in records && id !in rest :: c.maintenance !in Credentials(records[id]))
    && (forall a, b | a in records && b in records && a !in rest && b !in rest && a != b :: Credentials(records[a]) !! Credentials(records[b]))
  }

  lemma ClashBreaks(c: Config, records: map<Uuid, Record>, rest: set<Uuid>, observed: set<Digest>, id: Uuid)
    requires Observed(c, records, rest, observed) && id in records && id in rest
    requires !(Credentials(records[id]) !! observed)
    ensures !CredentialsDistinct(c, records)
  {
    hide Credentials;
    var d :| d in Credentials(records[id]) && d in observed;
    if d != c.maintenance {
      var other :| other in records && other !in rest && d in Credentials(records[other]);
      assert !(Credentials(records[id]) !! Credentials(records[other]));
    }
  }

  lemma NoClashExtends(c: Config, records: map<Uuid, Record>, rest: set<Uuid>, observed: set<Digest>, id: Uuid)
    requires Observed(c, records, rest, observed) && DistinctSoFar(c, records, rest) && id in records && id in rest
    requires Credentials(records[id]) !! observed
    ensures DistinctSoFar(c, records, rest - {id})
    ensures Observed(c, records, rest - {id}, observed + Credentials(records[id]))
  {
    hide Credentials;
    forall a | a in records && a !in rest ensures Credentials(records[a]) !! Credentials(records[id]) {
      assert forall d | d in Credentials(records[a]) :: d in observed;
    }
  }

  lemma NoneLeft(c: Config, records: map<Uuid, Record>)
    ensures DistinctSoFar(c, records, {}) <==> CredentialsDistinct(c, records)
    ensures Observed(c, records, records.Keys, {c.maintenance}) && DistinctSoFar(c, records, records.Keys)
  {
    hide Credentials;
  }

  /** One pass over the records: per-record checks, credential distinctness, and the three sums. */
  method ValidateRecords(c: Config, s: Installation) returns (ok: bool, active: nat, evidence: nat, committed: nat)
    ensures ok == ((forall id | id in s.records :: RecordSemantics(s.records[id]) && Seen(s, s.records[id].lastSeen)) && CredentialsDistinct(c, s.records))
    ensures ok ==> Totals(active, evidence, committed) == TotalsOf(s.records)
  {
    hide RecordSemantics, Seen, Credentials, SumOver, Observed, DistinctSoFar, CredentialsDistinct, EvidenceBytes, CommittedBytes, ActiveBytes;
    active, evidence, committed := 0, 0, 0;
    var rest, observed := s.records, {c.maintenance};
    NoneLeft(c, s.records);
    while rest.Keys != {}
      invariant rest.Keys <= s.records.Keys && rest == map id | id in rest :: s.records[id]
      invariant forall id | id in s.records && id !in rest :: RecordSemantics(s.records[id]) && Seen(s, s.records[id].lastSeen)
      invariant Observed(c, s.records, rest.Keys, observed) && DistinctSoFar(c, s.records, rest.Keys)
      invariant active + SumOver(rest, ActiveBytes) == SumOver(s.records, ActiveBytes)
      invariant evidence + SumOver(rest, EvidenceBytes) == SumOver(s.records, EvidenceBytes)
      invariant committed + SumOver(rest, CommittedBytes) == SumOver(s.records, CommittedBytes)
      decreases |rest|
    {
      var id :| id in rest.Keys;
      var r := rest[id];
      assert r == s.records[id];
      if !RecordSemantics(r) || !Seen(s, r.lastSeen) {
        return false, 0, 0, 0;
      }
      if !(Credentials(r) !! observed) {
        ClashBreaks(c, s.records, rest.Keys, observed, id);
        return false, 0, 0, 0;
      }
      NoClashExtends(c, s.records, rest.Keys, observed, id);
      TalliesRemove(rest, id);
      SumRemove(rest, id, ActiveBytes);
      observed := observed + Credentials(r);
      active, evidence, committed := active + ActiveBytes(r), evidence + EvidenceBytes(r), committed + CommittedBytes(r);
      rest := rest - {id};
    }
    NothingToSum(rest);
    ok := true;
  }

  lemma NothingToSum(rest: map<Uuid, Record>)
    requires rest.Keys == {}
    ensures SumOver(rest, ActiveBytes) == SumOver(rest, EvidenceBytes) == SumOver(rest, CommittedBytes) == 0
  {
  }

  method ValidateTombstones(c: Config, s: Installation) returns (ok: bool)
    ensures ok == forall id | id in s.tombstones :: TombstoneSemantics(c, s, s.tombstones[id])
  {
    hide TombstoneSemantics;
    var rest := s.tombstones.Keys;
    while rest != {}
      invariant rest <= s.tombstones.Keys
      invariant forall id | id in s.tombstones && id !in rest :: TombstoneSemantics(c, s, s.tombstones[id])
      decreases |rest|
    {
      var id :| id in rest;
      if !TombstoneSemantics(c, s, s.tombstones[id]) {
        return false;
      }
      rest := rest - {id};
    }
    ok := true;
  }

  method ValidateSemantics(c: Config, s: Installation, totals: Totals) returns (ok: bool)
    ensures ok == Semantics(c, s, totals)
  {
    hide RecordSemantics, CredentialsDistinct, TombstoneSemantics, TotalsOf;
    var active, evidence, committed;
    ok, active, evidence, committed := ValidateRecords(c, s);
    if ok {
      ok := ValidateTombstones(c, s);
      ok := ok && totals == Totals(active, evidence, committed) && WithinQuota(c, totals);
    }
  }

  // --- The handle ------------------------------------------------------------

  /** The one row of the database, shared by every handle on it. */
  class Database {
    var frame: Option<Frame>

    constructor ()
      ensures frame == None
    {
      frame := None;
    }
  }

  class Handle {
    const v: Vault
    const database: Database
    var poisoned: bool

    constructor (v: Vault, database: Database)
      ensures this.v == v && this.database == database && !poisoned
    {
      this.v, this.database, poisoned := v, database, false;
    }

    method LoadRow(f: Frame) returns (loaded: Option<Loaded>)
      ensures loaded == Load(v, f)
    {
      hide RowPlausible, Opened, Semantics, ValidatedMaterial;
      if !RowPlausible(v, f) {
        return None;
      }
      var saved := Opened(v, f);
      if saved.None? {
        return None;
      }
      var authentic := ValidateAllMaterial(v.p, saved.value.state.records);
      if !authentic {
        return None;
      }
      var sane := ValidateSemantics(v.c, saved.value.state, saved.value.totals);
      if !sane {
        return None;
      }
      RowGeneration(v, f);
      return Some(Loaded(f.generation, saved.value));
    }

    method WriteRow(s: Installation, totals: Totals, generation: nat, nonce: Nonce) returns (w: Writing)
      ensures w == Write(v, s, totals, generation, nonce)
    {
      hide Semantics, FrameOf, Serialized;
      if generation >= MAX_FRAME_GENERATION {
        return Unwritten(INTERNAL_UNCERTAINTY);
      }
      var sane := ValidateSemantics(v.c, s, totals);
      if !sane {
        return Unwritten(INTERNAL_UNCERTAINTY);
      }
      if |Serialized(v, s, totals)| > MaxSerialized(v.c.limits) {
        return Unwritten(OVERSIZE);
      }
      return Written(FrameOf(v, s, totals, generation, nonce));
    }

    static method Open(v: Vault, database: Database, io: Io) returns (handle: Option<Handle>)
      modifies database
      ensures Opening(database.frame, handle.Some?) == OpenStep(v, old(database.frame), io)
      ensures handle.Some? ==> handle.value.v == v && handle.value.database == database && !handle.value.poisoned
    {
      hide Load, Write;
      if !io.begin.Began? {
        return None;
      }
      var candidate := new Handle(v, database);
      if database.frame.None? {
        var w := candidate.WriteRow(EMPTY_INSTALLATION, Totals(0, 0, 0), 0, io.nonce);
        if w.Unwritten? {
          return None;
        }
        if !io.ending.LostOld? {
          database.frame := Some(w.frame);
        }
      } else {
        var loaded := candidate.LoadRow(database.frame.value);
        if loaded.None? {
          return None;
        }
      }
      handle := if io.ending.Durable? then Some(candidate) else None;
    }

    method Poison() returns (reply: Reply)
      modifies this
      ensures poisoned && reply == Denied(INTERNAL_UNCERTAINTY)
    {
      poisoned := true;
      reply := Denied(INTERNAL_UNCERTAINTY);
    }

    /** Lock, load, one step, re-encode, commit, reply. */
    method Run(q: Request, io: Io) returns (reply: Reply)
      requires VaultSound(v)
      modifies this, database
      ensures Transition(database.frame, poisoned, reply) == HandleStep(v, old(database.frame), old(poisoned), q, io)
    {
      hide VaultSound, Sound, Load, Write, Step, Serialized, TotalsOf, Inv;
      if poisoned {
        reply := Poison();
        return;
      }
      if io.begin.Busy? {
        return Denied(CONTENDED);
      }
      if io.begin.Broken? || database.frame.None? {
        reply := Poison();
        return;
      }
      var loaded := LoadRow(database.frame.value);
      if loaded.None? {
        reply := Poison();
        return;
      }
      LoadedInv(v, database.frame.value);
      SoundInside(v);
      var saved := loaded.value.saved;
      var repository := new Repository.Restored(v.c, v.p, saved.state, saved.totals);
      var before := Serialized(v, saved.state, saved.totals);
      reply := repository.Perform(q);
      if reply.Fault? {
        reply := Poison();
        return;
      }
      var s := Installation(repository.records, repository.tombstones, repository.highWater);
      var totals := Totals(repository.totalActive, repository.totalEvidence, repository.totalCommitted);
      repository.TotalsAreSums();
      if Serialized(v, s, totals) == before {
        if !io.ending.Durable? {
          reply := Poison();
          return;
        }
      } else {
        var w := WriteRow(s, totals, loaded.value.generation + 1, io.nonce);
        if w.Unwritten? {
          reply := Denied(w.denial);
        } else {
          if io.ending != LostOld {
            database.frame := Some(w.frame);
          }
          if io.ending != Durable {
            reply := Poison();
            return;
          }
        }
      }
      poisoned := reply == Denied(INTERNAL_UNCERTAINTY);
    }
  }

  lemma RowGeneration(v: Vault, f: Frame)
    requires RowPlausible(v, f)
    ensures f.generation >= 0
  {
  }
}
