/** What objects with a few literal members mean, as maps. */
module Meanings {
  import opened JsonText
  import opened Canonical

  lemma SwapUpdates(m: map<string, Meaning>, a: string, x: Meaning, b: string, y: Meaning)
    requires a != b
    ensures m[a := x][b := y] == m[b := y][a := x]
  {
  }

  /** The members entered into a map one after the other. */
  ghost function Entered(ms: seq<Member>): map<string, Meaning> {
    if ms == [] then map[] else Entered(ms[..|ms| - 1])[ms[|ms| - 1].key := MeaningOf(ms[|ms| - 1].value)]
  }

  lemma OneMoreEntered(ms: seq<Member>, m: Member)
    ensures Entered(ms + [m]) == Entered(ms)[m.key := MeaningOf(m.value)]
  {
    assert (ms + [m])[..|ms|] == ms;
  }

  lemma {:induction false} EnteredFirst(m: Member, ms: seq<Member>)
    requires forall i :: 0 <= i < |ms| ==> ms[i].key != m.key
    ensures Entered([m] + ms) == Entered(ms)[m.key := MeaningOf(m.value)]
  {
    if ms == [] {
      OneMoreEntered([], m);
      assert [] + [m] == [m] + ms;
    } else {
      var n := |ms| - 1;
      EnteredFirst(m, ms[..n]);
      assert [m] + ms == [m] + ms[..n] + [ms[n]];
      OneMoreEntered([m] + ms[..n], ms[n]);
      SwapUpdates(Entered(ms[..n]), m.key, MeaningOf(m.value), ms[n].key, MeaningOf(ms[n].value));
    }
  }

  /** For different keys the order does not matter. */
  lemma {:induction false} EnteredMeans(ms: seq<Member>)
    requires DistinctKeys(ms)
    ensures MeaningOfMembers(ms) == Entered(ms)
  {
    if ms != [] {
      EnteredMeans(ms[1..]);
      EnteredFirst(ms[0], ms[1..]);
      assert ms == [ms[0]] + ms[1..];
    }
  }

  lemma TwoEntered(a: Member, b: Member)
    ensures Entered([a, b]) == map[a.key := MeaningOf(a.value), b.key := MeaningOf(b.value)]
  {
    OneMoreEntered([], a);
    OneMoreEntered([a], b);
    assert [] + [a] == [a] && [a] + [b] == [a, b];
  }

  lemma FourEntered(a: Member, b: Member, c: Member, d: Member)
    ensures Entered([a, b, c, d])
      == map[a.key := MeaningOf(a.value), b.key := MeaningOf(b.value), c.key := MeaningOf(c.value),
             d.key := MeaningOf(d.value)]
  {
    TwoEntered(a, b);
    OneMoreEntered([a, b], c);
    OneMoreEntered([a, b, c], d);
    assert [a, b] + [c] == [a, b, c] && [a, b, c] + [d] == [a, b, c, d];
  }

  lemma FiveEntered(a: Member, b: Member, c: Member, d: Member, e: Member)
    ensures Entered([a, b, c, d, e])
      == map[a.key := MeaningOf(a.value), b.key := MeaningOf(b.value), c.key := MeaningOf(c.value),
             d.key := MeaningOf(d.value), e.key := MeaningOf(e.value)]
  {
    FourEntered(a, b, c, d);
    OneMoreEntered([a, b, c, d], e);
    assert [a, b, c, d] + [e] == [a, b, c, d, e];
  }

  lemma SixEntered(a: Member, b: Member, c: Member, d: Member, e: Member, f: Member)
    ensures Entered([a, b, c, d, e, f])
      == map[a.key := MeaningOf(a.value), b.key := MeaningOf(b.value), c.key := MeaningOf(c.value),
             d.key := MeaningOf(d.value), e.key := MeaningOf(e.value), f.key := MeaningOf(f.value)]
  {
    FiveEntered(a, b, c, d, e);
    OneMoreEntered([a, b, c, d, e], f);
    assert [a, b, c, d, e] + [f] == [a, b, c, d, e, f];
  }

  lemma SevenEntered(ms: seq<Member>)
    requires |ms| == 7
    ensures Entered(ms)
      == map[ms[0].key := MeaningOf(ms[0].value), ms[1].key := MeaningOf(ms[1].value),
             ms[2].key := MeaningOf(ms[2].value), ms[3].key := MeaningOf(ms[3].value),
             ms[4].key := MeaningOf(ms[4].value), ms[5].key := MeaningOf(ms[5].value),
             ms[6].key := MeaningOf(ms[6].value)]
  {
    SixEntered(ms[0], ms[1], ms[2], ms[3], ms[4], ms[5]);
    OneMoreEntered(ms[..6], ms[6]);
    assert ms[..6] == [ms[0], ms[1], ms[2], ms[3], ms[4], ms[5]] && ms[..6] + [ms[6]] == ms;
  }

  lemma EightEntered(ms: seq<Member>)
    requires |ms| == 8
    ensures Entered(ms)
      == map[ms[0].key := MeaningOf(ms[0].value), ms[1].key := MeaningOf(ms[1].value),
             ms[2].key := MeaningOf(ms[2].value), ms[3].key := MeaningOf(ms[3].value),
             ms[4].key := MeaningOf(ms[4].value), ms[5].key := MeaningOf(ms[5].value),
             ms[6].key := MeaningOf(ms[6].value), ms[7].key := MeaningOf(ms[7].value)]
  {
    SevenEntered(ms[..7]);
    OneMoreEntered(ms[..7], ms[7]);
    assert ms[..7] + [ms[7]] == ms;
  }
}
