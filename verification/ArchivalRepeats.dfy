/** When exactly a version of a concept is archived a second time. */
module ArchivalRepeats {
  import opened Wrappers
  import opened Archival

  /** An upload of `slot` succeeds with state `n`. */
  ghost predicate Succeeds(run: seq<System>, n: nat, slot: Slot) {
    0 < n < |run| && Times(run[n], slot) > Times(run[n - 1], slot)
  }

  /** The version of `id` whose upload succeeded last. */
  ghost function LastSuccess(run: seq<System>, n: nat, id: string): Option<int>
    requires n < |run|
  {
    if n == 0 then None
    else if exists version :: Succeeds(run, n, Slot(id, version)) then
      var version :| Succeeds(run, n, Slot(id, version));
      Some(version)
    else LastSuccess(run, n - 1, id)
  }

  function Remembered(s: System, id: string): Option<int> {
    if id in s.archivedVersion then Some(s.archivedVersion[id]) else None
  }

  /** The success of one upload: it is counted and remembered, and its slot is freed. */
  ghost predicate Success(s: System, s': System, slot: Slot) {
    && slot in s.uploading && s'.uploading == s.uploading - {slot}
    && s'.archivedVersion == s.archivedVersion[slot.id := slot.version]
    && s'.uploaded == s.uploaded[slot := Times(s, slot) + 1]
  }

  ghost predicate Quiet(s: System, s': System) {
    s'.archivedVersion == s.archivedVersion && s'.uploaded == s.uploaded
  }

  /** Only a success counts or remembers anything. */
  lemma StepIsQuietOrSuccess(s: System, s': System)
    requires Inv(s) && Next(s, s')
    ensures Quiet(s, s') || exists slot :: Success(s, s', slot)
  {
    if c: nat :| Acts(s, s', c) {
      if ok :| SettleStep(s, s', c, ok) {
        SettleIsSuccess(s, s', c, ok);
      }
    }
  }

  lemma SettleIsSuccess(s: System, s': System, c: nat, ok: bool)
    requires Inv(s) && SettleStep(s, s', c, ok)
    ensures if ok then Success(s, s', s.calls[c].slot) else Quiet(s, s')
  {
  }

  ghost predicate SuccessAt(run: seq<System>, n: nat, slot: Slot) {
    0 < n < |run| && Success(run[n - 1], run[n], slot)
  }

  lemma StepOfRun(run: seq<System>, n: nat)
    requires IsRun(run) && 0 < n < |run|
    ensures Inv(run[n - 1]) && Next(run[n - 1], run[n])
    ensures Quiet(run[n - 1], run[n]) || exists slot :: SuccessAt(run, n, slot)
  {
    var s, s' := run[n - 1], run[n];
    RunKeepsInv(run, n - 1);
    assert StepAt(run, n - 1);
    StepIsQuietOrSuccess(s, s');
    if slot :| Success(s, s', slot) {
      assert SuccessAt(run, n, slot);
    }
  }

  /** The connector remembers of every concept exactly the version whose upload succeeded last. */
  lemma {:induction false} RemembersLastSuccess(run: seq<System>, n: nat, id: string)
    requires IsRun(run) && n < |run|
    ensures Remembered(run[n], id) == LastSuccess(run, n, id)
  {
    if n > 0 {
      RemembersLastSuccess(run, n - 1, id);
      StepOfRun(run, n);
      if slot :| SuccessAt(run, n, slot) {
        OnlyOneSucceeds(run, n, slot);
        if slot.id == id {
          assert Succeeds(run, n, Slot(id, slot.version));
        }
      }
    }
  }

  lemma OnlyOneSucceeds(run: seq<System>, n: nat, slot: Slot)
    requires SuccessAt(run, n, slot)
    ensures forall other :: Succeeds(run, n, other) <==> other == slot
  {
  }

  /** An upload in progress was started, and nothing was counted for its version since. */
  lemma {:induction false} UploadBegan(run: seq<System>, n: nat, slot: Slot) returns (j: nat)
    requires IsRun(run) && n < |run| && slot in run[n].uploading
    ensures j <= n && Starts(run, j, slot) && Times(run[j - 1], slot) == Times(run[n], slot)
  {
    if slot !in run[n - 1].uploading {
      j := n;
    } else {
      j := UploadBegan(run, n - 1, slot);
    }
    StepOfRun(run, n);
    if done :| SuccessAt(run, n, done) {
      assert done != slot;
    }
  }

  lemma {:induction false} TimesGrow(run: seq<System>, i: nat, n: nat, slot: Slot)
    requires IsRun(run) && i <= n < |run|
    ensures Times(run[i], slot) <= Times(run[n], slot)
  {
    if i < n {
      TimesGrow(run, i, n - 1, slot);
      StepOfRun(run, n);
    }
  }

  /** With state `j` an upload of a version begins that was uploaded before. */
  ghost predicate Restarts(run: seq<System>, j: nat, slot: Slot) {
    Starts(run, j, slot) && Times(run[j - 1], slot) > 0
  }

  ghost predicate Repeats(run: seq<System>, j: nat, k: nat, slot: Slot) {
    j < k && Restarts(run, j, slot) && Succeeds(run, k, slot)
  }

  /** A version is uploaded twice exactly if an upload of it starts again and one succeeds after that. */
  lemma UploadedTwiceExactly(run: seq<System>, n: nat, slot: Slot)
    requires IsRun(run) && n < |run|
    ensures Times(run[n], slot) >= 2 <==> exists j: nat, k: nat :: k <= n && Repeats(run, j, k, slot)
  {
    if j: nat, k: nat :| k <= n && Repeats(run, j, k, slot) {
      TimesGrow(run, j - 1, k - 1, slot);
      TimesGrow(run, k, n, slot);
    }
    if Times(run[n], slot) >= 2 {
      var j, k := TwiceMeansRepeated(run, n, slot);
    }
  }

  lemma {:induction false} TwiceMeansRepeated(run: seq<System>, n: nat, slot: Slot) returns (j: nat, k: nat)
    requires IsRun(run) && n < |run| && Times(run[n], slot) >= 2
    ensures k <= n && Repeats(run, j, k, slot)
  {
    if Times(run[n - 1], slot) >= 2 {
      j, k := TwiceMeansRepeated(run, n - 1, slot);
    } else {
      StepOfRun(run, n);
      var done :| SuccessAt(run, n, done);
      assert done == slot;
      j := UploadBegan(run, n - 1, slot);
      k := n;
    }
  }

  ghost predicate InFlight(s: System, slot: Slot) {
    exists c :: 0 <= c < |s.calls| && s.calls[c] == Call.Uploading(slot)
  }

  /** A call that goes on with state `n` has read this version, tagged and with content. */
  ghost predicate ResumesWith(run: seq<System>, n: nat, c: nat, slot: Slot) {
    && 0 < n < |run| && ResumeStep(run[n - 1], run[n], c)
    && run[n - 1].calls[c].id == slot.id
    && run[n - 1].calls[c].reading == Reading(slot.version, true, true)
  }

  /**
   An upload starts exactly if a call goes on with a version that is neither in flight nor the
   one that succeeded last. Whether it was uploaded before that plays no part.
   */
  lemma StartsExactly(run: seq<System>, n: nat, slot: Slot)
    requires IsRun(run) && 0 < n < |run|
    ensures Starts(run, n, slot)
      <==> (&& (exists c: nat :: ResumesWith(run, n, c, slot))
            && LastSuccess(run, n - 1, slot.id) != Some(slot.version) && !InFlight(run[n - 1], slot))
  {
    var s, s' := run[n - 1], run[n];
    RemembersLastSuccess(run, n - 1, slot.id);
    OneUploadPerVersion(run, n - 1, slot);
    StepOfRun(run, n);
    if c: nat :| ResumeStep(s, s', c) {
      OneResumes(s, s', c);
      assert ResumesWith(run, n, c, slot) <==>
        s.calls[c].id == slot.id && s.calls[c].reading == Reading(slot.version, true, true);
    } else {
      NoNewUpload(s, s', slot);
    }
  }

  lemma OneResumes(s: System, s': System, c: nat)
    requires ResumeStep(s, s', c)
    ensures forall d: nat :: ResumeStep(s, s', d) <==> d == c
  {
    assert forall d: nat :: d < |s.calls| && d != c ==> s'.calls[d] == s.calls[d];
  }

  lemma NoNewUpload(s: System, s': System, slot: Slot)
    requires Next(s, s') && forall c: nat :: !ResumeStep(s, s', c)
    ensures slot in s'.uploading ==> slot in s.uploading
  {
    if c: nat :| Acts(s, s', c) {
    }
  }
}
