/**
 Archiving concepts for good: overlapping calls share one upload per version, and the last
 archived version of a concept is remembered. A call runs on its own between its awaits.
 */
module Archival {

  /** `<conceptId>@<version>` */
  datatype Slot = Slot(id: string, version: int)

  /** What a read of a concept says to a call. */
  datatype Reading = Reading(version: int, tagged: bool, hasContent: bool)

  datatype Outcome = Archived | NotTagged | NoContent | AlreadyArchived | Failed

  /** Where a call stands. `Waiting(u)` waits for the upload of call `u`. */
  datatype Call =
    | Called(id: string)
    | HasRead(id: string, reading: Reading)
    | Uploading(slot: Slot)
    | Waiting(slot: Slot, uploader: nat)
    | Done(slot: Slot, outcome: Outcome)

  /** What a resumed call does next. */
  datatype Decision = Return(outcome: Outcome) | Wait(uploader: nat) | Upload

  // ------------------------------------------------------- the connector

  function Decide(archivedVersion: map<string, int>, uploading: map<Slot, nat>, id: string, r: Reading): Decision {
    if !r.tagged then Return(NotTagged)
    else if !r.hasContent then Return(NoContent)
    else if id in archivedVersion && archivedVersion[id] == r.version then Return(AlreadyArchived)
    else if Slot(id, r.version) in uploading then Wait(uploading[Slot(id, r.version)])
    else Upload
  }

  /** The two maps; each method is the code between two awaits of call `c`. */
  class ArchivalConnector {
    var archivedVersion: map<string, int>
    var uploading: map<Slot, nat>

    constructor ()
      ensures archivedVersion == map[] && uploading == map[]
    {
      archivedVersion, uploading := map[], map[];
    }

    /** From the read to the next await; an upload reserves its slot at once. */
    method Resume(c: nat, id: string, r: Reading) returns (d: Decision)
      modifies this
      ensures d == Decide(old(archivedVersion), old(uploading), id, r)
      ensures d == Return(NotTagged) <==> !r.tagged
      ensures d == Return(NoContent) <==> r.tagged && !r.hasContent
      ensures d == Return(AlreadyArchived) <==>
        r.tagged && r.hasContent && id in old(archivedVersion) && old(archivedVersion)[id] == r.version
      ensures d.Wait? ==> Slot(id, r.version) in old(uploading) && d.uploader == old(uploading)[Slot(id, r.version)]
      ensures d.Upload? ==> Slot(id, r.version) !in old(uploading)
      ensures archivedVersion == old(archivedVersion)
      ensures uploading == if d.Upload? then old(uploading)[Slot(id, r.version) := c] else old(uploading)
    {
      if !r.tagged {
        return Return(NotTagged);
      }
      if !r.hasContent {
        return Return(NoContent);
      }
      if id in archivedVersion && archivedVersion[id] == r.version {
        return Return(AlreadyArchived);
      }
      var slot := Slot(id, r.version);
      if slot in uploading {
        return Wait(uploading[slot]);
      }
      uploading := uploading[slot := c];
      return Upload;
    }

    /** Behind the upload: the slot is freed either way, a success is remembered. */
    method Settle(slot: Slot, ok: bool)
      modifies this
      ensures uploading == old(uploading) - {slot}
      ensures archivedVersion == if ok then old(archivedVersion)[slot.id := slot.version] else old(archivedVersion)
    {
      uploading := uploading - {slot};
      if ok {
        archivedVersion := archivedVersion[slot.id := slot.version];
      }
    }
  }

  // ------------------------------------------------------- the step system

  /** The connector's maps, the calls, and how often each version was uploaded successfully. */
  datatype System = System(
    archivedVersion: map<string, int>,
    uploading: map<Slot, nat>,
    calls: seq<Call>,
    uploaded: map<Slot, nat>)

  function Times(s: System, slot: Slot): nat {
    if slot in s.uploaded then s.uploaded[slot] else 0
  }

  ghost predicate ReadStep(s: System, s': System, c: nat, r: Reading) {
    && c < |s.calls| && s.calls[c].Called?
    && s' == s.(calls := s.calls[c := HasRead(s.calls[c].id, r)])
  }

  function Resumed(s: System, c: nat): System
    requires c < |s.calls| && s.calls[c].HasRead?
  {
    var id, r := s.calls[c].id, s.calls[c].reading;
    var slot := Slot(id, r.version);
    match Decide(s.archivedVersion, s.uploading, id, r)
    case Return(outcome) => s.(calls := s.calls[c := Done(slot, outcome)])
    case Wait(u) => s.(calls := s.calls[c := Waiting(slot, u)])
    case Upload => s.(calls := s.calls[c := Uploading(slot)], uploading := s.uploading[slot := c])
  }

  function Settled(s: System, c: nat, ok: bool): System
    requires c < |s.calls| && s.calls[c].Uploading?
  {
    var slot := s.calls[c].slot;
    System(if ok then s.archivedVersion[slot.id := slot.version] else s.archivedVersion,
           s.uploading - {slot},
           s.calls[c := Done(slot, if ok then Archived else Failed)],
           if ok then s.uploaded[slot := Times(s, slot) + 1] else s.uploaded)
  }

  /** A waiting call learns how the upload it waited for ended. */
  function Woken(s: System, c: nat): System
    requires c < |s.calls| && s.calls[c].Waiting?
    requires s.calls[c].uploader < |s.calls| && s.calls[s.calls[c].uploader].Done?
  {
    s.(calls := s.calls[c := Done(s.calls[c].slot,
        if s.calls[s.calls[c].uploader].outcome.Archived? then AlreadyArchived else Failed)])
  }

  ghost predicate ResumeStep(s: System, s': System, c: nat) {
    c < |s.calls| && s.calls[c].HasRead? && s' == Resumed(s, c)
  }

  ghost predicate SettleStep(s: System, s': System, c: nat, ok: bool) {
    c < |s.calls| && s.calls[c].Uploading? && s' == Settled(s, c, ok)
  }

  ghost predicate WakeStep(s: System, s': System, c: nat) {
    && c < |s.calls| && s.calls[c].Waiting?
    && s.calls[c].uploader < |s.calls| && s.calls[s.calls[c].uploader].Done?
    && s' == Woken(s, c)
  }

  /** A call whose wallet cannot be loaded or whose read fails ends before it decides anything. */
  ghost predicate AbortStep(s: System, s': System, c: nat, version: int) {
    && c < |s.calls| && s.calls[c].Called?
    && s' == s.(calls := s.calls[c := Done(Slot(s.calls[c].id, version), Failed)])
  }

  ghost predicate CallStep(s: System, s': System, id: string) {
    s' == s.(calls := s.calls + [Called(id)])
  }

  ghost predicate Acts(s: System, s': System, c: nat) {
    || (exists r :: ReadStep(s, s', c, r))
    || ResumeStep(s, s', c)
    || (exists ok :: SettleStep(s, s', c, ok))
    || WakeStep(s, s', c)
    || (exists version :: AbortStep(s, s', c, version))
  }

  ghost predicate Next(s: System, s': System) {
    (exists c: nat :: Acts(s, s', c)) || (exists id :: CallStep(s, s', id))
  }

  const FRESH: System := System(map[], map[], [], map[])

  /** State `i + 1` of the run follows from state `i`. */
  ghost predicate StepAt(run: seq<System>, i: nat) {
    i + 1 < |run| && Next(run[i], run[i + 1])
  }

  ghost predicate IsRun(run: seq<System>) {
    run != [] && run[0] == FRESH && forall i: nat :: i + 1 < |run| ==> StepAt(run, i)
  }

  // --------------------------------------------------------- one at a time

  /** `uploading` lists exactly the uploads in progress, each under the call that makes it. */
  ghost predicate SlotsHold(s: System) {
    && (forall slot :: slot in s.uploading ==>
          s.uploading[slot] < |s.calls| && s.calls[s.uploading[slot]] == Uploading(slot))
    && (forall c :: 0 <= c < |s.calls| && s.calls[c].Uploading? ==>
          s.calls[c].slot in s.uploading && s.uploading[s.calls[c].slot] == c)
  }

  /** What calls have been told is true. */
  ghost predicate ToldTrue(s: System, call: Call) {
    match call
    case Done(slot, outcome) => outcome.Archived? || outcome.AlreadyArchived? ==> Times(s, slot) > 0
    case Waiting(slot, u) =>
      && u < |s.calls|
      && (s.calls[u] == Uploading(slot) || (s.calls[u].Done? && s.calls[u].slot == slot
            && (s.calls[u].outcome.Archived? || s.calls[u].outcome.Failed?)))
    case _ => true
  }

  ghost predicate Inv(s: System) {
    && SlotsHold(s)
    && (forall id :: id in s.archivedVersion ==> Times(s, Slot(id, s.archivedVersion[id])) > 0)
    && (forall c :: 0 <= c < |s.calls| ==> ToldTrue(s, s.calls[c]))
  }

  lemma ReadKeepsInv(s: System, s': System, c: nat, call: Call)
    requires Inv(s) && c < |s.calls| && s.calls[c].Called?
    requires call.HasRead? || (call.Done? && call.outcome.Failed?)
    requires s' == s.(calls := s.calls[c := call])
    ensures Inv(s')
  {
    forall d | 0 <= d < |s'.calls| ensures ToldTrue(s', s'.calls[d]) {
      assert d != c ==> ToldTrue(s, s.calls[d]);
    }
  }

  lemma QuietCallKeepsSlots(s: System, s': System, c: nat, call: Call)
    requires SlotsHold(s) && c < |s.calls| && !s.calls[c].Uploading? && !call.Uploading?
    requires s'.uploading == s.uploading && s'.calls == s.calls[c := call]
    ensures SlotsHold(s')
  {
  }

  lemma NewUploadKeepsSlots(s: System, s': System, c: nat, slot: Slot)
    requires SlotsHold(s) && c < |s.calls| && !s.calls[c].Uploading? && slot !in s.uploading
    requires s'.uploading == s.uploading[slot := c] && s'.calls == s.calls[c := Uploading(slot)]
    ensures SlotsHold(s')
  {
  }

  lemma ResumeKeepsSlots(s: System, c: nat)
    requires SlotsHold(s) && c < |s.calls| && s.calls[c].HasRead?
    ensures SlotsHold(Resumed(s, c))
  {
    var s' := Resumed(s, c);
    if s'.calls[c].Uploading? {
      NewUploadKeepsSlots(s, s', c, s'.calls[c].slot);
    } else {
      QuietCallKeepsSlots(s, s', c, s'.calls[c]);
    }
  }

  /** What the resumed call itself is told. */
  lemma ResumedIsTold(s: System, c: nat)
    requires Inv(s) && c < |s.calls| && s.calls[c].HasRead?
    ensures ToldTrue(Resumed(s, c), Resumed(s, c).calls[c])
  {
  }

  lemma ResumeKeepsInv(s: System, c: nat)
    requires Inv(s) && c < |s.calls| && s.calls[c].HasRead?
    ensures Inv(Resumed(s, c))
  {
    var s' := Resumed(s, c);
    ResumeKeepsSlots(s, c);
    ResumedIsTold(s, c);
    forall d | 0 <= d < |s'.calls| ensures ToldTrue(s', s'.calls[d]) {
      if d != c {
        OthersStillTold(s, c, s.calls[d]);
      }
    }
  }

  lemma OthersStillTold(s: System, c: nat, call: Call)
    requires Inv(s) && c < |s.calls| && s.calls[c].HasRead? && ToldTrue(s, call)
    ensures ToldTrue(Resumed(s, c), call)
  {
  }

  lemma SettleKeepsSlots(s: System, c: nat, ok: bool)
    requires SlotsHold(s) && c < |s.calls| && s.calls[c].Uploading?
    ensures SlotsHold(Settled(s, c, ok))
  {
  }

  lemma SettleKeepsInv(s: System, c: nat, ok: bool)
    requires Inv(s) && c < |s.calls| && s.calls[c].Uploading?
    ensures Inv(Settled(s, c, ok))
  {
    var s' := Settled(s, c, ok);
    SettleKeepsSlots(s, c, ok);
    forall slot ensures Times(s', slot) >= Times(s, slot) {
    }
    forall d | 0 <= d < |s'.calls| ensures ToldTrue(s', s'.calls[d]) {
      if d != c {
        assert ToldTrue(s, s.calls[d]);
      }
    }
  }

  lemma WakeKeepsInv(s: System, s': System, c: nat)
    requires Inv(s) && WakeStep(s, s', c)
    ensures Inv(s')
  {
    assert ToldTrue(s, s.calls[c]);
    assert ToldTrue(s, s.calls[s.calls[c].uploader]);
    forall d | 0 <= d < |s'.calls| ensures ToldTrue(s', s'.calls[d]) {
      assert ToldTrue(s, s.calls[d]);
    }
  }

  lemma CallKeepsInv(s: System, s': System, id: string)
    requires Inv(s) && CallStep(s, s', id)
    ensures Inv(s')
  {
    forall d | 0 <= d < |s'.calls| ensures ToldTrue(s', s'.calls[d]) {
      if d < |s.calls| {
        assert ToldTrue(s, s.calls[d]);
      }
    }
  }

  lemma StepKeepsInv(s: System, s': System)
    requires Inv(s) && Next(s, s')
    ensures Inv(s')
  {
    if c: nat :| Acts(s, s', c) {
      if r :| ReadStep(s, s', c, r) {
        ReadKeepsInv(s, s', c, HasRead(s.calls[c].id, r));
      } else if ResumeStep(s, s', c) {
        ResumeKeepsInv(s, c);
      } else if ok :| SettleStep(s, s', c, ok) {
        SettleKeepsInv(s, c, ok);
      } else if WakeStep(s, s', c) {
        WakeKeepsInv(s, s', c);
      } else {
        var version :| AbortStep(s, s', c, version);
        ReadKeepsInv(s, s', c, Done(Slot(s.calls[c].id, version), Failed));
      }
    } else {
      var id :| CallStep(s, s', id);
      CallKeepsInv(s, s', id);
    }
  }

  lemma {:induction false} RunKeepsInv(run: seq<System>, n: nat)
    requires IsRun(run) && n < |run|
    ensures Inv(run[n])
  {
    if n > 0 {
      RunKeepsInv(run, n - 1);
      assert StepAt(run, n - 1);
      StepKeepsInv(run[n - 1], run[n]);
    }
  }

  ghost predicate AtMostOne(calls: seq<Call>, call: Call) {
    forall c, d :: 0 <= c < d < |calls| && calls[c] == call ==> calls[d] != call
  }

  /** In every reachable state each version has at most one upload in progress, and `uploading` lists them all. */
  lemma OneUploadPerVersion(run: seq<System>, n: nat, slot: Slot)
    requires IsRun(run) && n < |run|
    ensures slot in run[n].uploading <==> exists c :: 0 <= c < |run[n].calls| && run[n].calls[c] == Uploading(slot)
    ensures AtMostOne(run[n].calls, Uploading(slot))
  {
    RunKeepsInv(run, n);
  }

  /** A call that was told its version is archived was told the truth. */
  lemma ArchivedMeansUploaded(run: seq<System>, n: nat, c: nat)
    requires IsRun(run) && n < |run| && c < |run[n].calls| && run[n].calls[c].Done?
    requires run[n].calls[c].outcome.Archived? || run[n].calls[c].outcome.AlreadyArchived?
    ensures Times(run[n], run[n].calls[c].slot) > 0
  {
    RunKeepsInv(run, n);
    assert ToldTrue(run[n], run[n].calls[c]);
  }

  // ------------------------------------------------------ once per version

  /** Uploads of different versions of one concept never overlap. */
  ghost predicate NoOverlap(run: seq<System>) {
    forall i :: 0 <= i < |run| ==> OneVersionAtATime(run[i])
  }

  ghost predicate OneVersionAtATime(s: System) {
    forall a, b :: a in s.uploading && b in s.uploading && a.id == b.id ==> a == b
  }

  /** The upload of `slot` begins with state `j`. */
  ghost predicate Starts(run: seq<System>, j: nat, slot: Slot) {
    0 < j < |run| && slot in run[j].uploading && slot !in run[j - 1].uploading
  }

  ghost predicate UploadingAt(run: seq<System>, i: nat, slot: Slot) {
    i < |run| && slot in run[i].uploading
  }

  /** An upload that starts has a version not below any version that was uploading before. */
  ghost predicate StartsInOrder(run: seq<System>) {
    forall i: nat, j: nat, a, b ::
      (i < j && UploadingAt(run, i, a) && Starts(run, j, b) && a.id == b.id) ==> a.version <= b.version
  }

  ghost predicate Orderly(run: seq<System>) {
    NoOverlap(run) && StartsInOrder(run)
  }

  lemma {:induction false} VersionsGrow(run: seq<System>, i: nat, j: nat, a: Slot, b: Slot)
    requires Orderly(run)
    requires i <= j && UploadingAt(run, i, a) && UploadingAt(run, j, b) && a.id == b.id
    ensures a.version <= b.version
    decreases j
  {
    if i == j {
      assert OneVersionAtATime(run[i]);
    } else if b in run[j - 1].uploading {
      VersionsGrow(run, i, j - 1, a, b);
    } else {
      assert Starts(run, j, b);
    }
  }

  ghost predicate WasUploading(run: seq<System>, n: nat, slot: Slot) {
    exists i: nat :: i <= n && UploadingAt(run, i, slot)
  }

  /** What is known of one version in a state `s` that was reached after `n` steps. */
  ghost predicate Once(run: seq<System>, n: nat, s: System, slot: Slot) {
    && Times(s, slot) <= 1
    && (slot in s.uploading ==> Times(s, slot) == 0)
    && (Times(s, slot) > 0 ==>
          slot.id in s.archivedVersion && s.archivedVersion[slot.id] >= slot.version && WasUploading(run, n, slot))
  }

  ghost predicate OnceEach(run: seq<System>, n: nat, s: System) {
    forall slot :: Once(run, n, s, slot)
  }

  lemma StillWasUploading(run: seq<System>, n: nat, slot: Slot)
    requires WasUploading(run, n, slot)
    ensures WasUploading(run, n + 1, slot)
  {
    var i: nat :| i <= n && UploadingAt(run, i, slot);
  }

  /** One step of a run, with what is known before it. */
  ghost predicate At(run: seq<System>, n: nat, s: System, s': System) {
    && Orderly(run) && n + 1 < |run| && run[n] == s && run[n + 1] == s'
    && Inv(s) && OnceEach(run, n, s)
  }

  /** A resumed call starts no upload of a version that was uploaded. */
  lemma UploadsAreNew(run: seq<System>, n: nat, s: System, s': System, slot: Slot)
    requires At(run, n, s, s') && slot in s'.uploading
    requires !(slot.id in s.archivedVersion && s.archivedVersion[slot.id] == slot.version)
    ensures Times(s, slot) == 0
  {
    assert Once(run, n, s, slot);
    if Times(s, slot) > 0 {
      var last := Slot(slot.id, s.archivedVersion[slot.id]);
      assert Once(run, n, s, last);
      var i: nat :| i <= n && UploadingAt(run, i, last);
      assert UploadingAt(run, n + 1, slot);
      VersionsGrow(run, i, n + 1, last, slot);
    }
  }

  /** A version that a step neither uploads nor forgets. */
  lemma SameVersion(run: seq<System>, n: nat, m: nat, s: System, s': System, slot: Slot)
    requires m == n + 1 && OnceEach(run, n, s) && s'.uploaded == s.uploaded && s'.archivedVersion == s.archivedVersion
    requires slot in s'.uploading ==> Times(s, slot) == 0
    ensures Once(run, m, s', slot)
  {
    assert Once(run, n, s, slot);
    if Times(s, slot) > 0 {
      StillWasUploading(run, n, slot);
    }
  }

  lemma QuietKeepsOnce(run: seq<System>, n: nat, m: nat, s: System, s': System)
    requires m == n + 1 && At(run, n, s, s') && s'.uploaded == s.uploaded && s'.archivedVersion == s.archivedVersion
    requires s'.uploading == s.uploading
    ensures OnceEach(run, m, s')
  {
    forall slot ensures Once(run, m, s', slot) {
      assert Once(run, n, s, slot);
      SameVersion(run, n, m, s, s', slot);
    }
  }

  lemma ResumeKeepsOnce(run: seq<System>, n: nat, m: nat, s: System, s': System, c: nat)
    requires m == n + 1 && At(run, n, s, s') && ResumeStep(s, s', c)
    ensures OnceEach(run, m, s')
  {
    var id, r := s.calls[c].id, s.calls[c].reading;
    if Decide(s.archivedVersion, s.uploading, id, r).Upload? {
      var started := Slot(id, r.version);
      UploadsAreNew(run, n, s, s', started);
      forall slot ensures Once(run, m, s', slot) {
        assert Once(run, n, s, slot);
        SameVersion(run, n, m, s, s', slot);
      }
    } else {
      QuietKeepsOnce(run, n, m, s, s');
    }
  }

  /** A settled upload is not older than any version of its concept. */
  lemma SettledIsLatest(run: seq<System>, n: nat, s: System, s': System, slot: Slot, a: Slot)
    requires At(run, n, s, s') && slot in s.uploading && a.id == slot.id && Times(s, a) > 0
    ensures a.version <= slot.version
  {
    assert Once(run, n, s, a);
    var i: nat :| i <= n && UploadingAt(run, i, a);
    assert UploadingAt(run, n, slot);
    VersionsGrow(run, i, n, a, slot);
  }

  lemma SettledVersion(run: seq<System>, n: nat, m: nat, s: System, s': System, c: nat, a: Slot)
    requires m == n + 1 && At(run, n, s, s') && SettleStep(s, s', c, true)
    ensures Once(run, m, s', a)
  {
    var slot := s.calls[c].slot;
    assert slot in s.uploading;
    assert Once(run, n, s, slot) && Once(run, n, s, a);
    assert UploadingAt(run, n, slot);
    assert WasUploading(run, n, slot);
    StillWasUploading(run, n, slot);
    if a != slot && Times(s, a) > 0 {
      StillWasUploading(run, n, a);
      if a.id == slot.id {
        SettledIsLatest(run, n, s, s', slot, a);
      }
    }
  }

  lemma SettleKeepsOnce(run: seq<System>, n: nat, m: nat, s: System, s': System, c: nat, ok: bool)
    requires m == n + 1 && At(run, n, s, s') && SettleStep(s, s', c, ok)
    ensures OnceEach(run, m, s')
  {
    forall slot ensures Once(run, m, s', slot) {
      assert Once(run, n, s, slot);
      if ok {
        SettledVersion(run, n, m, s, s', c, slot);
      } else {
        SameVersion(run, n, m, s, s', slot);
      }
    }
  }

  lemma StepKeepsOnce(run: seq<System>, n: nat, m: nat, s: System, s': System)
    requires m == n + 1 && At(run, n, s, s') && Next(s, s')
    ensures OnceEach(run, m, s')
  {
    if c: nat :| Acts(s, s', c) {
      if ResumeStep(s, s', c) {
        ResumeKeepsOnce(run, n, m, s, s', c);
      } else if ok :| SettleStep(s, s', c, ok) {
        SettleKeepsOnce(run, n, m, s, s', c, ok);
      } else {
        QuietKeepsOnce(run, n, m, s, s');
      }
    } else {
      QuietKeepsOnce(run, n, m, s, s');
    }
  }

  lemma {:induction false} RunKeepsOnce(run: seq<System>, n: nat)
    requires IsRun(run) && Orderly(run) && n < |run|
    ensures OnceEach(run, n, run[n])
  {
    if n > 0 {
      var m := n - 1;
      RunKeepsOnce(run, m);
      RunKeepsInv(run, m);
      assert StepAt(run, m);
      StepKeepsOnce(run, m, n, run[m], run[m + 1]);
    }
  }

  /**
   If uploads of different versions of a concept never overlap and versions come in order,
   no version is uploaded successfully twice.
   */
  lemma NoVersionTwice(run: seq<System>, n: nat, slot: Slot)
    requires IsRun(run) && Orderly(run) && n < |run|
    ensures Times(run[n], slot) <= 1
  {
    RunKeepsOnce(run, n);
    assert Once(run, n, run[n], slot);
  }

  // ------------------------------------------ both conditions are needed

  /** A run whose uploads so far have versions up to `top` and started in order. */
  ghost predicate Extends(run: seq<System>, s: System, top: int) {
    && IsRun(run) && run[|run| - 1] == s && StartsInOrder(run)
    && forall i: nat, a :: UploadingAt(run, i, a) ==> a.version <= top
  }

  lemma OneStepMore(run: seq<System>, s: System, s': System, top: int, top': int)
    requires Extends(run, s, top) && Next(s, s') && top <= top'
    requires forall slot :: slot in s'.uploading ==>
      slot.version <= top' && (slot in s.uploading || slot.version >= top)
    ensures Extends(run + [s'], s', top')
  {
    var run' := run + [s'];
    forall i: nat | i + 1 < |run'| ensures StepAt(run', i) {
      assert i + 1 < |run| ==> StepAt(run, i);
    }
    forall i: nat, a | UploadingAt(run', i, a) ensures a.version <= top' {
      assert i < |run| ==> UploadingAt(run, i, a);
    }
    forall i: nat, j: nat, a, b | i < j && UploadingAt(run', i, a) && Starts(run', j, b) && a.id == b.id
      ensures a.version <= b.version
    {
      assert UploadingAt(run, i, a);
      assert j < |run| ==> Starts(run, j, b);
    }
  }

  /** A call of concept "a" that reads `r`, up to and including its decision. */
  lemma CallReadResume(run: seq<System>, s: System, r: Reading, top: int, top': int)
    returns (run': seq<System>, s': System)
    requires Extends(run, s, top) && top <= r.version <= top'
    ensures s' == Resumed(s.(calls := s.calls + [HasRead("a", r)]), |s.calls|)
    ensures Extends(run', s', top') && run <= run'
    ensures NoOverlap(run) && OneVersionAtATime(s') ==> NoOverlap(run')
  {
    var c := |s.calls|;
    var s1 := s.(calls := s.calls + [Called("a")]);
    var s2 := s1.(calls := s1.calls[c := HasRead("a", r)]);
    assert s2.calls == s.calls + [HasRead("a", r)];
    s' := Resumed(s2, c);
    assert CallStep(s, s1, "a") && ReadStep(s1, s2, c, r) && ResumeStep(s2, s', c);
    assert Acts(s1, s2, c) && Acts(s2, s', c);
    AllUploadsKnown(run, s, top);
    OneStepMore(run, s, s1, top, top);
    OneStepMore(run + [s1], s1, s2, top, top);
    OneStepMore(run + [s1] + [s2], s2, s', top, top');
    run' := run + [s1] + [s2] + [s'];
    assert NoOverlap(run) ==> OneVersionAtATime(run[|run| - 1]);
  }

  lemma AllUploadsKnown(run: seq<System>, s: System, top: int)
    requires Extends(run, s, top)
    ensures forall slot :: slot in s.uploading ==> slot.version <= top
  {
    forall slot | slot in s.uploading ensures slot.version <= top {
      assert UploadingAt(run, |run| - 1, slot);
    }
  }

  lemma UploadSucceeds(run: seq<System>, s: System, c: nat, top: int) returns (run': seq<System>, s': System)
    requires Extends(run, s, top) && c < |s.calls| && s.calls[c].Uploading?
    ensures s' == Settled(s, c, true)
    ensures Extends(run', s', top) && run <= run'
    ensures NoOverlap(run) ==> NoOverlap(run')
  {
    s' := Settled(s, c, true);
    assert SettleStep(s, s', c, true) && Acts(s, s', c);
    AllUploadsKnown(run, s, top);
    OneStepMore(run, s, s', top, top);
    run' := run + [s'];
    assert NoOverlap(run) ==> OneVersionAtATime(run[|run| - 1]);
  }

  /** Version 1 is uploading when version 2 is archived, and is archived after it. */
  lemma OverlapForgets() returns (run: seq<System>, s: System)
    ensures Extends(run, s, 2) && |s.calls| == 2 && s.uploading == map[]
    ensures s.archivedVersion == map["a" := 1] && Times(s, Slot("a", 2)) == 1
  {
    run, s := [FRESH], FRESH;
    run, s := CallReadResume(run, s, Reading(1, true, true), 1, 1);
    run, s := CallReadResume(run, s, Reading(2, true, true), 1, 2);
    run, s := UploadSucceeds(run, s, 1, 2);
    run, s := UploadSucceeds(run, s, 0, 2);
  }

  /**
   Versions in order are not enough: if version 1 is still uploading when version 2 is archived,
   version 1 is remembered last, and the next call archives version 2 again.
   */
  lemma OverlapUploadsTwice() returns (run: seq<System>)
    ensures IsRun(run) && StartsInOrder(run)
    ensures Times(run[|run| - 1], Slot("a", 2)) == 2
  {
    var s;
    run, s := OverlapForgets();
    run, s := CallReadResume(run, s, Reading(2, true, true), 2, 2);
    run, s := UploadSucceeds(run, s, 2, 2);
  }

  /** A run without overlapping uploads, whatever their order. */
  ghost predicate Apart(run: seq<System>, s: System) {
    IsRun(run) && run[|run| - 1] == s && NoOverlap(run)
  }

  lemma OneApartMore(run: seq<System>, s: System, s': System)
    requires Apart(run, s) && Next(s, s') && OneVersionAtATime(s')
    ensures Apart(run + [s'], s')
  {
    var run' := run + [s'];
    forall i: nat | i + 1 < |run'| ensures StepAt(run', i) {
      assert i + 1 < |run| ==> StepAt(run, i);
    }
  }

  lemma LoneEffect(s: System, c: nat, r: Reading)
    requires c < |s.calls| && s.calls[c] == HasRead("a", r) && s.uploading == map[] && r.tagged && r.hasContent
    requires !("a" in s.archivedVersion && s.archivedVersion["a"] == r.version)
    ensures var slot, uploads := Slot("a", r.version), Resumed(s, c);
      && uploads.calls[c] == Uploading(slot) && OneVersionAtATime(uploads)
      && var s' := Settled(uploads, c, true);
         && s'.uploading == map[] && s'.archivedVersion == s.archivedVersion["a" := r.version]
         && s'.uploaded == s.uploaded[slot := Times(s, slot) + 1]
  {
  }

  /** A whole call of concept "a" that reads `r` and uploads it, with nothing else going on. */
  lemma LoneUpload(run: seq<System>, s: System, r: Reading) returns (run': seq<System>, s': System)
    requires Apart(run, s) && s.uploading == map[] && r.tagged && r.hasContent
    requires !("a" in s.archivedVersion && s.archivedVersion["a"] == r.version)
    ensures Apart(run', s') && s'.uploading == map[]
    ensures s'.archivedVersion == s.archivedVersion["a" := r.version]
    ensures s'.uploaded == s.uploaded[Slot("a", r.version) := Times(s, Slot("a", r.version)) + 1]
  {
    var c := |s.calls|;
    var run2, s2 := LoneRead(run, s, r);
    var s3 := Resumed(s2, c);
    LoneEffect(s2, c, r);
    s' := Settled(s3, c, true);
    assert ResumeStep(s2, s3, c) && SettleStep(s3, s', c, true);
    assert Acts(s2, s3, c) && Acts(s3, s', c);
    OneApartMore(run2, s2, s3);
    OneApartMore(run2 + [s3], s3, s');
    run' := run2 + [s3] + [s'];
  }

  lemma LoneRead(run: seq<System>, s: System, r: Reading) returns (run': seq<System>, s': System)
    requires Apart(run, s) && s.uploading == map[]
    ensures Apart(run', s') && s' == s.(calls := s.calls + [HasRead("a", r)])
  {
    var c := |s.calls|;
    var s1 := s.(calls := s.calls + [Called("a")]);
    s' := s1.(calls := s1.calls[c := HasRead("a", r)]);
    assert CallStep(s, s1, "a") && ReadStep(s1, s', c, r);
    assert Acts(s1, s', c);
    OneApartMore(run, s, s1);
    OneApartMore(run + [s1], s1, s');
    run' := run + [s1] + [s'];
  }

  /**
   Uploads that never overlap are not enough either: a version that comes back after another one,
   as when a concept is deleted and created again, is uploaded again.
   */
  lemma DisorderUploadsTwice() returns (run: seq<System>)
    ensures IsRun(run) && NoOverlap(run)
    ensures Times(run[|run| - 1], Slot("a", 2)) == 2
  {
    var one, two := Reading(1, true, true), Reading(2, true, true);
    run := [FRESH];
    var s := FRESH;
    run, s := LoneUpload(run, s, two);
    run, s := LoneUpload(run, s, one);
    run, s := LoneUpload(run, s, two);
  }
}
