/** What a re-embedding leaves behind, column by column, and which concepts it skips and why. */
module Reembedded {
  import opened Wrappers
  import opened Ordering
  import opened Rows
  import opened Planning
  import opened SavedColumns
  import opened Reembedding

  /** A vector of another model, or of none, in the namespace. */
  ghost predicate HasForeignVector(st: Settings, row: Row) {
    row.namespace == st.namespace && row.embedding.Some? && row.embeddingModel != Some(st.model)
  }

  /** A vector that may be derived anew: there is text, and no author is in the way. */
  ghost predicate MayBeDerived(st: Settings, row: Row) {
    st.textOf(row).Some? && (st.overwrite || MadeByMachine(row.provenance, Vector))
  }

  /** The row with the vector of its own text; all content and its provenance stay. */
  ghost predicate IsRewritten(st: Settings, before: Row, after: Row) {
    && st.textOf(before).Some?
    && var (text, from) := st.textOf(before).value;
    && after.embedding == Some(st.embed(text)) && after.embeddingModel == Some(st.model)
    && after.version == before.version + 1 && after.updatedAt == st.clock(before.id)
    && after.id == before.id && after.namespace == before.namespace && after.createdAt == before.createdAt
    && after.markdown == before.markdown && after.thoughtform == before.thoughtform
    && after.assertionStatus == before.assertionStatus && after.ledgerRef == before.ledgerRef
    && NoRepeats(after.tags) && (forall t :: t in after.tags <==> t in before.tags)
    && HasNewProvenance(before, after, Provenance(Derived, Some(from), Some(st.model), None, None))
  }

  ghost predicate HasNewProvenance(before: Row, after: Row, p: Provenance) {
    && Vector in after.provenance && after.provenance[Vector] == p
    && forall rep :: rep != Vector ==> ProvenanceOf(after.provenance, rep) == ProvenanceOf(before.provenance, rep)
  }

  /** The concepts the call can reach at all: those with a foreign vector and an id that is not empty. */
  ghost predicate IsReachable(st: Settings, concepts: map<string, Row>, id: string) {
    id != "" && id in concepts && HasForeignVector(st, concepts[id])
  }

  lemma ReachableExactly(st: Settings, concepts: map<string, Row>, id: string)
    ensures id in ForeignBehind(st, concepts, None) <==> IsReachable(st, concepts, id)
  {
  }

  lemma RowIsRewritten(st: Settings, row: Row)
    requires st.textOf(row).Some?
    ensures IsRewritten(st, row, RowAfter(st, row))
  {
    forall rep: Representation | rep != Vector
      ensures ProvenanceOf(RowAfter(st, row).provenance, rep) == ProvenanceOf(row.provenance, rep)
    {
    }
  }

  /** What became of every concept the call looked at, and of all others. */
  ghost predicate EachIsDealtWith(st: Settings, before: map<string, Row>, looked: seq<string>,
                                  after: map<string, Row>, r: ReembedOutcome) {
    && after.Keys == before.Keys
    && (forall id :: id in r.reembedded <==> id in looked && id in before && MayBeDerived(st, before[id]))
    && (forall id, reason :: (id, reason) in r.skipped <==> id in looked && IsSkipped(st, before, id, reason))
    && (forall id :: id in before && id in r.reembedded ==> IsRewritten(st, before[id], after[id]))
    && forall id :: id in before && id !in r.reembedded ==> after[id] == before[id]
  }

  ghost predicate IsSkipped(st: Settings, before: map<string, Row>, id: string, reason: SkipReason) {
    && id in before && !MayBeDerived(st, before[id])
    && reason == if st.textOf(before[id]).None? then NoText else IsAuthored
  }

  lemma EligibleExactly(st: Settings, row: Row)
    requires row.embedding.Some?
    ensures Eligible(st, row) <==> MayBeDerived(st, row)
  {
  }

  lemma LookedAt(st: Settings, before: map<string, Row>, l: seq<string>, n: nat, id: string)
    requires n <= |l| && ListsSet(l, ForeignBehind(st, before, None)) && id in l[..n]
    ensures id in before && before[id].embedding.Some?
  {
    assert id in l;
    ReachableExactly(st, before, id);
  }

  /** A call looks at reachable concepts in the order of their ids, and deals with each as it should. */
  lemma ReembeddingIsExact(st: Settings, before: map<string, Row>, l: seq<string>, n: nat, after: map<string, Row>,
                           r: ReembedOutcome)
    requires IsReembedding(st, before, l, n, after, r)
    ensures forall id :: id in l <==> IsReachable(st, before, id)
    ensures forall i, j :: 0 <= i < j < |l| ==> StringLess(l[i], l[j])
    ensures EachIsDealtWith(st, before, l[..n], after, r)
    ensures r.remaining == |set id | id in after && HasForeignVector(st, after[id])|
  {
    forall id ensures id in l <==> IsReachable(st, before, id) {
      ReachableExactly(st, before, id);
    }
    forall id ensures id in r.reembedded <==> id in l[..n] && id in before && MayBeDerived(st, before[id]) {
      ChosenExactly(st, before, l, n, id);
    }
    forall id, reason ensures (id, reason) in r.skipped <==> id in l[..n] && IsSkipped(st, before, id, reason) {
      PassedExactly(st, before, l, n, id, reason);
    }
    forall id | id in before && id in r.reembedded ensures IsRewritten(st, before[id], after[id]) {
      RowIsRewritten(st, before[id]);
    }
    assert Foreign(st, after) == set id | id in after && HasForeignVector(st, after[id]);
  }

  lemma ChosenExactly(st: Settings, before: map<string, Row>, l: seq<string>, n: nat, id: string)
    requires n <= |l| && ListsSet(l, ForeignBehind(st, before, None))
    ensures id in Chosen(st, before, l[..n]) <==> id in l[..n] && id in before && MayBeDerived(st, before[id])
  {
    ChosenMembers(st, before, l[..n], id);
    if id in l[..n] {
      LookedAt(st, before, l, n, id);
      EligibleExactly(st, before[id]);
    }
  }

  lemma PassedExactly(st: Settings, before: map<string, Row>, l: seq<string>, n: nat, id: string, reason: SkipReason)
    requires n <= |l| && ListsSet(l, ForeignBehind(st, before, None))
    ensures (id, reason) in Passed(st, before, l[..n]) <==> id in l[..n] && IsSkipped(st, before, id, reason)
  {
    PassedMembers(st, before, l[..n], (id, reason));
    if id in l[..n] {
      LookedAt(st, before, l, n, id);
      EligibleExactly(st, before[id]);
    }
  }
}
