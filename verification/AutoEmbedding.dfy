/** Vectors for the entries of a batch that need one, computed in one call to the embedder. */
module AutoEmbedding {
  import opened Wrappers
  import opened Rows

  /** `thoughtformText` is the text of the supplied thoughtform, if it has one. */
  datatype Entry = Entry(
    autoEmbed: Option<bool>,
    embedding: Option<Embedding>,
    markdown: Option<string>,
    thoughtformText: Option<string>)

  type Vectored = Option<(Embedding, Representation)>

  /** What `trim` removes. */
  predicate IsSpace(c: char) {
    || '\U{0009}' <= c <= '\U{000D}' || c == ' ' || c == '\U{00A0}' || c == '\U{1680}'
    || '\U{2000}' <= c <= '\U{200A}' || c == '\U{2028}' || c == '\U{2029}' || c == '\U{202F}'
    || c == '\U{205F}' || c == '\U{3000}' || c == '\U{FEFF}'
  }

  /** White space and line terminators by their code points. */
  lemma SpaceCharacters(c: char)
    ensures IsSpace(c) <==>
      c as int in {0x9, 0xA, 0xB, 0xC, 0xD, 0x20, 0xA0, 0x1680, 0x2000, 0x2001, 0x2002, 0x2003, 0x2004, 0x2005, 0x2006,
                   0x2007, 0x2008, 0x2009, 0x200A, 0x2028, 0x2029, 0x202F, 0x205F, 0x3000, 0xFEFF}
  {
  }

  predicate HasText(s: string) {
    exists i :: 0 <= i < |s| && !IsSpace(s[i])
  }

  /** Markdown if there is any, be it blank; only without markdown the thoughtform's text. */
  function Source(e: Entry): Option<(string, Representation)> {
    if e.markdown.Some? then
      if HasText(e.markdown.value) then Some((e.markdown.value, Markdown)) else None
    else if e.thoughtformText.Some? && e.thoughtformText.value != "" then Some((e.thoughtformText.value, Thoughtform))
    else None
  }

  /** The entry's own switch, else the batch's; a supplied vector is kept. */
  predicate Needs(e: Entry, autoEmbed: Option<bool>) {
    e.autoEmbed.GetOr(autoEmbed.GetOr(false)) && e.embedding.None? && Source(e).Some?
  }

  /** Whether a vector is asked for: by the entry, or, if it says nothing, by the batch. */
  predicate Asked(e: Entry, autoEmbed: Option<bool>) {
    if e.autoEmbed.Some? then e.autoEmbed.value else autoEmbed == Some(true)
  }

  /**
   No vector without being asked or next to a supplied one. Otherwise the vector of the markdown,
   if that is more than white space; of the thoughtform's text only where there is no markdown.
   */
  ghost predicate GetsRightVector(e: Entry, autoEmbed: Option<bool>, model: string -> Embedding,
                                  usable: Embedding -> bool, got: Vectored) {
    if !Asked(e, autoEmbed) || e.embedding.Some? then got == None
    else
      match (e.markdown, e.thoughtformText)
      case (Some(text), _) =>
        if exists i :: 0 <= i < |text| && !IsSpace(text[i]) then
          got == Some((model(text), Markdown)) && usable(model(text))
        else got == None
      case (None, Some(text)) =>
        if text != "" then got == Some((model(text), Thoughtform)) && usable(model(text)) else got == None
      case (None, None) => got == None
  }

  lemma RightVector(e: Entry, autoEmbed: Option<bool>, model: string -> Embedding, usable: Embedding -> bool)
    requires !Unusable(e, autoEmbed, model, usable)
    ensures GetsRightVector(e, autoEmbed, model, usable, VectorFor(e, autoEmbed, model))
  {
  }

  datatype Pending = Pending(index: nat, text: string, from: Representation)

  /** `model` embeds one text. */
  ghost predicate LawfulEmbedder(embedBatch: seq<string> -> seq<Embedding>, model: string -> Embedding) {
    forall texts :: |embedBatch(texts)| == |texts|
      && forall i :: 0 <= i < |texts| ==> embedBatch(texts)[i] == model(texts[i])
  }

  /** What an entry is to get. */
  function VectorFor(e: Entry, autoEmbed: Option<bool>, model: string -> Embedding): Vectored {
    if Needs(e, autoEmbed) then Some((model(Source(e).value.0), Source(e).value.1)) else None
  }

  function VectorsFor(entries: seq<Entry>, autoEmbed: Option<bool>, model: string -> Embedding): (vs: seq<Vectored>)
    ensures |vs| == |entries|
  {
    seq(|entries|, i requires 0 <= i < |entries| => VectorFor(entries[i], autoEmbed, model))
  }

  predicate Unusable(e: Entry, autoEmbed: Option<bool>, model: string -> Embedding, usable: Embedding -> bool) {
    Needs(e, autoEmbed) && !usable(model(Source(e).value.0))
  }

  /** `pending` lists the needy among the first `n` entries, in order, each with its own text. */
  ghost predicate Gathered(entries: seq<Entry>, n: nat, autoEmbed: Option<bool>, pending: seq<Pending>) {
    && n <= |entries|
    && (forall p :: 0 <= p < |pending| ==> pending[p].index < n && GatheredFrom(entries, autoEmbed, pending[p]))
    && (forall p, q :: 0 <= p < q < |pending| ==> pending[p].index < pending[q].index)
    && (forall i :: 0 <= i < n && Needs(entries[i], autoEmbed) ==>
          exists p :: 0 <= p < |pending| && pending[p].index == i)
  }

  ghost predicate GatheredFrom(entries: seq<Entry>, autoEmbed: Option<bool>, p: Pending) {
    && p.index < |entries| && Needs(entries[p.index], autoEmbed)
    && Source(entries[p.index]) == Some((p.text, p.from))
  }

  method Gather(entries: seq<Entry>, autoEmbed: Option<bool>) returns (pending: seq<Pending>)
    ensures Gathered(entries, |entries|, autoEmbed, pending)
  {
    pending := [];
    for i := 0 to |entries|
      invariant Gathered(entries, i, autoEmbed, pending)
    {
      ghost var before := pending;
      if entries[i].autoEmbed.GetOr(autoEmbed.GetOr(false)) && entries[i].embedding.None? {
        var source := Source(entries[i]);
        if source.Some? {
          pending := pending + [Pending(i, source.value.0, source.value.1)];
          assert pending[|before|].index == i;
        }
      }
      forall k | 0 <= k < i + 1 && Needs(entries[k], autoEmbed)
        ensures exists p :: 0 <= p < |pending| && pending[p].index == k
      {
        if k < i {
          var p :| 0 <= p < |before| && before[p].index == k;
          assert pending[p].index == k;
        }
      }
    }
  }

  function Texts(pending: seq<Pending>): (texts: seq<string>)
    ensures |texts| == |pending| && forall i :: 0 <= i < |pending| ==> texts[i] == pending[i].text
  {
    seq(|pending|, i requires 0 <= i < |pending| => pending[i].text)
  }

  ghost predicate AmongFirst(pending: seq<Pending>, p: nat, i: nat) {
    exists q :: 0 <= q < p && q < |pending| && pending[q].index == i
  }

  /** The vectors of the first `p` pending texts are in place. */
  ghost predicate Scattered(entries: seq<Entry>, autoEmbed: Option<bool>, model: string -> Embedding,
                            pending: seq<Pending>,
                            p: nat, values: seq<Vectored>) {
    && |values| == |entries|
    && forall i :: 0 <= i < |entries| ==>
         values[i] == if AmongFirst(pending, p, i) then VectorFor(entries[i], autoEmbed, model) else None
  }

  lemma ScatterOne(entries: seq<Entry>, autoEmbed: Option<bool>, model: string -> Embedding, pending: seq<Pending>,
                   p: nat, values: seq<Vectored>, values': seq<Vectored>)
    requires Scattered(entries, autoEmbed, model, pending, p, values)
    requires p < |pending| && GatheredFrom(entries, autoEmbed, pending[p])
    requires values' == values[pending[p].index := Some((model(pending[p].text), pending[p].from))]
    ensures Scattered(entries, autoEmbed, model, pending, p + 1, values')
  {
    forall i | 0 <= i < |entries|
      ensures AmongFirst(pending, p + 1, i) <==> AmongFirst(pending, p, i) || i == pending[p].index
    {
      if AmongFirst(pending, p, i) {
        var q :| 0 <= q < p && pending[q].index == i;
      }
    }
  }

  lemma AllScattered(entries: seq<Entry>, autoEmbed: Option<bool>, model: string -> Embedding, pending: seq<Pending>,
                     values: seq<Vectored>)
    requires Gathered(entries, |entries|, autoEmbed, pending)
    requires Scattered(entries, autoEmbed, model, pending, |pending|, values)
    ensures values == VectorsFor(entries, autoEmbed, model)
  {
    forall i | 0 <= i < |entries| ensures values[i] == VectorFor(entries[i], autoEmbed, model) {
      if Needs(entries[i], autoEmbed) {
        assert AmongFirst(pending, |pending|, i);
      }
    }
  }

  /** The first `n` texts have usable vectors. */
  ghost predicate FirstUsable(pending: seq<Pending>, n: nat, model: string -> Embedding, usable: Embedding -> bool)
    requires n <= |pending|
  {
    forall p :: 0 <= p < n ==> usable(model(pending[p].text))
  }

  /** All pending vectors are usable exactly if no entry's is unusable. */
  lemma UsableExactly(entries: seq<Entry>, autoEmbed: Option<bool>, model: string -> Embedding,
                      usable: Embedding -> bool, pending: seq<Pending>)
    requires Gathered(entries, |entries|, autoEmbed, pending)
    ensures FirstUsable(pending, |pending|, model, usable)
      <==> forall i :: 0 <= i < |entries| ==> !Unusable(entries[i], autoEmbed, model, usable)
  {
    forall p | 0 <= p < |pending|
      ensures usable(model(pending[p].text)) <==> !Unusable(entries[pending[p].index], autoEmbed, model, usable)
    {
      assert GatheredFrom(entries, autoEmbed, pending[p]);
    }
  }

  ghost predicate AreVectorsOf(pending: seq<Pending>, vectors: seq<Embedding>, model: string -> Embedding) {
    |vectors| == |pending| && forall p :: 0 <= p < |pending| ==> vectors[p] == model(pending[p].text)
  }

  lemma VectorsOfTexts(pending: seq<Pending>, embedBatch: seq<string> -> seq<Embedding>, model: string -> Embedding)
    requires LawfulEmbedder(embedBatch, model)
    ensures AreVectorsOf(pending, embedBatch(Texts(pending)), model)
  {
  }

  /** Every vector goes to the entry its text came from, unless one is unusable. */
  method Scatter(entries: seq<Entry>, autoEmbed: Option<bool>, pending: seq<Pending>, vectors: seq<Embedding>,
                 usable: Embedding -> bool, ghost model: string -> Embedding)
    returns (r: Option<seq<Vectored>>)
    requires Gathered(entries, |entries|, autoEmbed, pending) && AreVectorsOf(pending, vectors, model)
    ensures r.Some? <==> FirstUsable(pending, |pending|, model, usable)
    ensures r.Some? ==> r.value == VectorsFor(entries, autoEmbed, model)
  {
    var result := new Vectored[|entries|](_ => None);
    for p := 0 to |pending|
      invariant Scattered(entries, autoEmbed, model, pending, p, result[..])
      invariant FirstUsable(pending, p, model, usable)
    {
      assert GatheredFrom(entries, autoEmbed, pending[p]);
      if !usable(vectors[p]) {
        return None;
      }
      ghost var before := result[..];
      result[pending[p].index] := Some((vectors[p], pending[p].from));
      ScatterOne(entries, autoEmbed, model, pending, p, before, result[..]);
    }
    AllScattered(entries, autoEmbed, model, pending, result[..]);
    return Some(result[..]);
  }

  /** Every entry that needs a vector gets the one of its own text; one unusable vector fails the batch. */
  method EmbedMissing(entries: seq<Entry>, autoEmbed: Option<bool>, embedBatch: seq<string> -> seq<Embedding>,
                      usable: Embedding -> bool, ghost model: string -> Embedding)
    returns (r: Option<seq<Vectored>>)
    requires LawfulEmbedder(embedBatch, model)
    ensures r.Some? <==> forall i :: 0 <= i < |entries| ==> !Unusable(entries[i], autoEmbed, model, usable)
    ensures r.Some? ==> r.value == VectorsFor(entries, autoEmbed, model)
    ensures r.Some? ==>
      && |r.value| == |entries|
      && forall i :: 0 <= i < |entries| ==> GetsRightVector(entries[i], autoEmbed, model, usable, r.value[i])
  {
    var pending := Gather(entries, autoEmbed);
    UsableExactly(entries, autoEmbed, model, usable, pending);
    VectorsOfTexts(pending, embedBatch, model);
    r := Scatter(entries, autoEmbed, pending, embedBatch(Texts(pending)), usable, model);
    if r.Some? {
      forall i | 0 <= i < |entries| ensures GetsRightVector(entries[i], autoEmbed, model, usable, r.value[i]) {
        RightVector(entries[i], autoEmbed, model, usable);
      }
    }
  }
}
