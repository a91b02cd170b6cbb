/** Splitting a payload into chunks of bounded size, and putting chunks together again. */
module Chunker {
  import opened Wrappers
  import opened Ordering

  newtype Byte = b: int | 0 <= b < 256

  type Bytes = seq<Byte>

  const MAX_CHUNK_SIZE: int := 1_000_000

  datatype Chunk = Chunk(chunkIndex: int, chunkCount: int, chunkHash: string, payload: Bytes)

  /** The payloads of `chunks`, one behind the other. */
  function Joined(chunks: seq<Chunk>): Bytes {
    if chunks == [] then [] else Joined(chunks[..|chunks| - 1]) + chunks[|chunks| - 1].payload
  }

  // ------------------------------------------------------------- chunking

  /** `Math.max(1, Math.ceil(length / maxSize))` */
  function ChunkCount(length: nat, maxSize: int): (n: int)
    requires maxSize >= 1
    ensures n >= 1
  {
    if length == 0 then 1 else 1 + (length - 1) / maxSize
  }

  /** Chunk `i` is numbered and hashed. */
  ghost predicate Labelled(chunk: Chunk, i: int, count: int, sha256: Bytes -> string) {
    chunk.chunkIndex == i && chunk.chunkCount == count && chunk.chunkHash == sha256(chunk.payload)
  }

  /** How `data` is to be cut: into full chunks and a last one that is only empty if `data` is. */
  ghost predicate AreChunks(data: Bytes, maxSize: int, sha256: Bytes -> string, chunks: seq<Chunk>) {
    && chunks != [] && Joined(chunks) == data
    && (forall i :: 0 <= i < |chunks| ==> Labelled(chunks[i], i, |chunks|, sha256))
    && (forall i :: 0 <= i < |chunks| - 1 ==> |chunks[i].payload| == maxSize)
    && |chunks[|chunks| - 1].payload| <= maxSize
    && (chunks[|chunks| - 1].payload == [] ==> data == [])
  }

  lemma Distribute(a: int, b: int, c: int)
    ensures (a + b) * c == a * c + b * c
  {
  }

  lemma CountCovers(length: nat, maxSize: int)
    requires maxSize >= 1
    ensures var n := ChunkCount(length, maxSize);
      && Times(n - 1, maxSize) <= length <= Times(n, maxSize)
      && (Times(n - 1, maxSize) == length ==> length == 0)
  {
    if length > 0 {
      var q := (length - 1) / maxSize;
      Quotient(length - 1, maxSize, q);
      assert Times(q + 1, maxSize) == Times(q, maxSize) + maxSize;
    }
  }

  lemma Quotient(a: nat, b: int, q: nat)
    requires b >= 1 && q == a / b
    ensures Times(q, b) <= a < Times(q, b) + b
  {
    DivisionAlgorithm(a, b, q);
    TimesIsProduct(q, b);
  }

  lemma DivisionAlgorithm(a: nat, b: int, q: nat)
    requires b >= 1 && q == a / b
    ensures q * b <= a < q * b + b
  {
    assert a == q * b + a % b;
  }

  function Min(a: int, b: int): int {
    if a <= b then a else b
  }

  /** The first `i` of `count` chunks are cut. */
  ghost predicate Cut(data: Bytes, maxSize: int, count: int, sha256: Bytes -> string, chunks: seq<Chunk>, i: nat)
    requires maxSize >= 1
  {
    && |chunks| == i && Joined(chunks) == data[..Min(Times(i, maxSize), |data|)]
    && (forall j :: 0 <= j < i ==> Labelled(chunks[j], j, count, sha256))
    && (forall j :: 0 <= j < i && j < count - 1 ==> |chunks[j].payload| == maxSize)
    && (0 < i == count ==> |data| - Times(count - 1, maxSize) == |chunks[count - 1].payload|)
  }

  /** `i * maxSize`, by addition. */
  ghost function Times(i: nat, maxSize: int): (r: nat)
    requires maxSize >= 1
  {
    if i == 0 then 0 else Times(i - 1, maxSize) + maxSize
  }

  lemma {:induction false} TimesIsProduct(i: nat, maxSize: int)
    requires maxSize >= 1
    ensures Times(i, maxSize) == i * maxSize
  {
    if i > 0 {
      TimesIsProduct(i - 1, maxSize);
      Distribute(i - 1, 1, maxSize);
    }
  }

  lemma {:induction false} TimesGrows(i: nat, j: nat, maxSize: int)
    requires maxSize >= 1 && i <= j
    ensures Times(i, maxSize) <= Times(j, maxSize)
    decreases j
  {
    if i < j {
      TimesGrows(i, j - 1, maxSize);
    }
  }

  lemma NextCut(data: Bytes, maxSize: int, count: int, sha256: Bytes -> string, chunks: seq<Chunk>, i: nat,
                start: int, end: int, payload: Bytes)
    requires maxSize >= 1 && i < count && Cut(data, maxSize, count, sha256, chunks, i)
    requires Times(count - 1, maxSize) <= |data| <= Times(count, maxSize)
    requires start == Times(i, maxSize) <= |data| && end == Min(start + maxSize, |data|) && payload == data[start..end]
    ensures Cut(data, maxSize, count, sha256, chunks + [Chunk(i, count, sha256(payload), payload)], i + 1)
  {
    var chunks' := chunks + [Chunk(i, count, sha256(payload), payload)];
    assert chunks'[..i] == chunks;
    assert data[..start] + payload == data[..end];
    if i < count - 1 {
      TimesGrows(i + 1, count - 1, maxSize);
    }
  }

  lemma AllCut(data: Bytes, maxSize: int, count: int, sha256: Bytes -> string, chunks: seq<Chunk>)
    requires maxSize >= 1 && count >= 1 && Cut(data, maxSize, count, sha256, chunks, count)
    requires Times(count - 1, maxSize) <= |data| <= Times(count, maxSize)
    requires Times(count - 1, maxSize) == |data| ==> data == []
    ensures AreChunks(data, maxSize, sha256, chunks)
  {
    assert data[..|data|] == data;
  }

  /** None stands for the refused chunk size. */
  method ChunkPayload(data: Bytes, maxChunkSize: Option<int>, sha256: Bytes -> string) returns (r: Option<seq<Chunk>>)
    ensures r.Some? <==> 1 <= maxChunkSize.GetOr(MAX_CHUNK_SIZE) <= MAX_CHUNK_SIZE
    ensures r.Some? ==> AreChunks(data, maxChunkSize.GetOr(MAX_CHUNK_SIZE), sha256, r.value)
  {
    var maxSize := maxChunkSize.GetOr(MAX_CHUNK_SIZE);
    if maxSize < 1 || maxSize > MAX_CHUNK_SIZE {
      return None;
    }
    var chunkCount := ChunkCount(|data|, maxSize);
    CountCovers(|data|, maxSize);
    var chunks: seq<Chunk> := [];
    for i := 0 to chunkCount
      invariant Cut(data, maxSize, chunkCount, sha256, chunks, i)
    {
      TimesGrows(i, chunkCount - 1, maxSize);
      TimesIsProduct(i, maxSize);
      var start := i * maxSize;
      var end := Min(start + maxSize, |data|);
      var payload := data[start..end];
      NextCut(data, maxSize, chunkCount, sha256, chunks, i, start, end, payload);
      chunks := chunks + [Chunk(i, chunkCount, sha256(payload), payload)];
    }
    AllCut(data, maxSize, chunkCount, sha256, chunks);
    return Some(chunks);
  }

  // ------------------------------------------------------------ reassembly

  datatype ChunkError =
    | NoChunks
    | WrongCount(expected: int, received: nat)
    | Missing(index: nat)
    | InconsistentCount(index: nat)
    | Corrupt(index: nat, expectedHash: string, actualHash: string)

  predicate ByIndex(a: Chunk, b: Chunk) {
    a.chunkIndex < b.chunkIndex
  }

  /** The first thing wrong with the sorted chunks from `i` on. */
  function FirstFault(sorted: seq<Chunk>, i: nat, count: int, sha256: Bytes -> string): Option<ChunkError>
    requires i <= |sorted|
    decreases |sorted| - i
  {
    if i == |sorted| then None
    else if sorted[i].chunkIndex != i then Some(Missing(i))
    else if sorted[i].chunkCount != count then Some(InconsistentCount(i))
    else if sha256(sorted[i].payload) != sorted[i].chunkHash then
      Some(Corrupt(i, sorted[i].chunkHash, sha256(sorted[i].payload)))
    else FirstFault(sorted, i + 1, count, sha256)
  }

  /** What reassembling `chunks` amounts to. */
  function Reassembled(chunks: seq<Chunk>, sha256: Bytes -> string): Result<Bytes, ChunkError> {
    if chunks == [] then Err(NoChunks)
    else if |chunks| != chunks[0].chunkCount then Err(WrongCount(chunks[0].chunkCount, |chunks|))
    else
      var sorted := Sort(chunks, ByIndex);
      match FirstFault(sorted, 0, chunks[0].chunkCount, sha256)
      case Some(e) => Err(e)
      case None => Ok(Joined(sorted))
  }

  /** Copy `payload` into the buffer at `offset`. */
  method SetAt(buffer: array<Byte>, payload: Bytes, offset: nat)
    requires offset + |payload| <= buffer.Length
    modifies buffer
    ensures buffer[..offset + |payload|] == old(buffer[..offset]) + payload
  {
    for i := 0 to |payload|
      invariant buffer[..offset + i] == old(buffer[..offset]) + payload[..i]
    {
      buffer[offset + i] := payload[i];
      assert buffer[..offset + i + 1] == buffer[..offset + i] + [payload[i]];
      assert payload[..i + 1] == payload[..i] + [payload[i]];
    }
    assert payload[..|payload|] == payload;
  }

  lemma {:induction false} JoinedPrefix(chunks: seq<Chunk>, i: nat)
    requires i < |chunks|
    ensures Joined(chunks[..i + 1]) == Joined(chunks[..i]) + chunks[i].payload
    ensures |Joined(chunks[..i + 1])| <= |Joined(chunks)|
    decreases |chunks|
  {
    assert chunks[..i + 1][..i] == chunks[..i];
    if i + 1 < |chunks| {
      var init := chunks[..|chunks| - 1];
      JoinedPrefix(init, i);
      assert init[..i + 1] == chunks[..i + 1] && init[..i] == chunks[..i];
    } else {
      assert chunks[..i + 1] == chunks;
    }
  }

  method ReassembleChunks(chunks: seq<Chunk>, sha256: Bytes -> string) returns (r: Result<Bytes, ChunkError>)
    ensures r == Reassembled(chunks, sha256)
    ensures r.Err? ==> IsFault(chunks, sha256, r.error)
  {
    FaultIsReal(chunks, sha256);
    if |chunks| == 0 {
      return Err(NoChunks);
    }
    var expectedCount := chunks[0].chunkCount;
    if |chunks| != expectedCount {
      return Err(WrongCount(expectedCount, |chunks|));
    }
    var sorted := Sort(chunks, ByIndex);
    for i := 0 to |sorted|
      invariant FirstFault(sorted, 0, expectedCount, sha256) == FirstFault(sorted, i, expectedCount, sha256)
    {
      var chunk := sorted[i];
      if chunk.chunkIndex != i {
        return Err(Missing(i));
      }
      if chunk.chunkCount != expectedCount {
        return Err(InconsistentCount(i));
      }
      var actualHash := sha256(chunk.payload);
      if actualHash != chunk.chunkHash {
        return Err(Corrupt(i, chunk.chunkHash, actualHash));
      }
    }
    var payload := WriteAll(sorted);
    return Ok(payload);
  }

  /** The output buffer, written at a moving offset. */
  method WriteAll(sorted: seq<Chunk>) returns (payload: Bytes)
    ensures payload == Joined(sorted)
  {
    var totalLength := 0;
    for i := 0 to |sorted|
      invariant totalLength == |Joined(sorted[..i])|
    {
      JoinedPrefix(sorted, i);
      totalLength := totalLength + |sorted[i].payload|;
    }
    assert sorted[..|sorted|] == sorted;
    var result := new Byte[totalLength];
    var offset := 0;
    for i := 0 to |sorted|
      invariant offset == |Joined(sorted[..i])| <= totalLength
      invariant result[..offset] == Joined(sorted[..i])
    {
      JoinedPrefix(sorted, i);
      SetAt(result, sorted[i].payload, offset);
      offset := offset + |sorted[i].payload|;
    }
    assert result[..] == result[..offset];
    payload := result[..];
  }

  // ------------------------------------------------- what is accepted

  /** Every index below the count occurs, and every chunk carries the right count and hash. */
  ghost predicate Complete(chunks: seq<Chunk>, sha256: Bytes -> string) {
    && chunks != []
    && (forall c :: c in chunks ==> c.chunkCount == |chunks| && c.chunkHash == sha256(c.payload))
    && (forall i :: 0 <= i < |chunks| ==> HasIndex(chunks, i))
  }

  ghost predicate HasIndex(chunks: seq<Chunk>, i: int) {
    exists c :: c in chunks && c.chunkIndex == i
  }

  lemma ByIndexIsStrictWeakOrder()
    ensures StrictWeakOrder(ByIndex)
  {
  }

  lemma {:induction false} NoFaultMeans(sorted: seq<Chunk>, i: nat, count: int, sha256: Bytes -> string)
    requires i <= |sorted|
    ensures FirstFault(sorted, i, count, sha256).None?
      <==> forall j :: i <= j < |sorted| ==> Labelled(sorted[j], j, count, sha256)
    decreases |sorted| - i
  {
    if i < |sorted| {
      NoFaultMeans(sorted, i + 1, count, sha256);
    }
  }

  /** Where all numbers below the length occur, the sorted indices count up. */
  lemma {:induction false} AtMost(sorted: seq<Chunk>, n: nat)
    requires n <= |sorted| && Sorted(sorted, ByIndex)
    requires forall i :: 0 <= i < |sorted| ==> HasIndex(sorted, i)
    ensures forall i :: 0 <= i < n ==> sorted[i].chunkIndex <= i
  {
    if n > 0 {
      AtMost(sorted, n - 1);
      assert HasIndex(sorted, n - 1);
      var c :| c in sorted && c.chunkIndex == n - 1;
      var p :| 0 <= p < |sorted| && sorted[p] == c;
      assert p >= n - 1;
      assert p > n - 1 ==> !ByIndex(sorted[p], sorted[n - 1]);
    }
  }

  lemma {:induction false} AtLeast(sorted: seq<Chunk>, n: nat)
    requires n <= |sorted| && Sorted(sorted, ByIndex)
    requires forall i :: 0 <= i < |sorted| ==> HasIndex(sorted, i)
    ensures forall i :: n <= i < |sorted| ==> sorted[i].chunkIndex >= i
    decreases |sorted| - n
  {
    if n < |sorted| {
      AtLeast(sorted, n + 1);
      assert HasIndex(sorted, n);
      var c :| c in sorted && c.chunkIndex == n;
      var p :| 0 <= p < |sorted| && sorted[p] == c;
      assert p <= n;
      assert p < n ==> !ByIndex(sorted[n], sorted[p]);
    }
  }

  lemma SameMembers(a: seq<Chunk>, b: seq<Chunk>)
    requires multiset(a) == multiset(b)
    ensures |a| == |b| && forall c :: c in a <==> c in b
  {
    assert |multiset(a)| == |multiset(b)|;
    assert forall c :: c in a <==> c in multiset(a);
    assert forall c :: c in b <==> c in multiset(b);
  }

  lemma CompleteSorts(chunks: seq<Chunk>, sha256: Bytes -> string)
    requires Complete(chunks, sha256)
    ensures forall i :: 0 <= i < |chunks| ==> Labelled(Sort(chunks, ByIndex)[i], i, |chunks|, sha256)
  {
    var sorted := Sort(chunks, ByIndex);
    ByIndexIsStrictWeakOrder();
    SortSorts(chunks, ByIndex);
    SortKeepsElements(chunks, ByIndex);
    SameMembers(sorted, chunks);
    forall i | 0 <= i < |sorted| ensures HasIndex(sorted, i) {
      assert HasIndex(chunks, i);
    }
    AtMost(sorted, |sorted|);
    AtLeast(sorted, 0);
    forall i | 0 <= i < |chunks| ensures Labelled(sorted[i], i, |chunks|, sha256) {
      assert sorted[i] in chunks;
    }
  }

  lemma SortedIsComplete(chunks: seq<Chunk>, sha256: Bytes -> string)
    requires chunks != []
    requires forall i :: 0 <= i < |chunks| ==> Labelled(Sort(chunks, ByIndex)[i], i, |chunks|, sha256)
    ensures Complete(chunks, sha256)
  {
    var sorted := Sort(chunks, ByIndex);
    SortKeepsElements(chunks, ByIndex);
    SameMembers(sorted, chunks);
    forall i | 0 <= i < |chunks| ensures HasIndex(chunks, i) {
      assert sorted[i] in chunks;
    }
    forall c | c in chunks ensures c.chunkCount == |chunks| && c.chunkHash == sha256(c.payload) {
      assert c in sorted;
    }
  }

  /** Accepted are exactly the complete sets: every index 0..n-1 occurs, counts and hashes agree. */
  lemma AcceptedExactly(chunks: seq<Chunk>, sha256: Bytes -> string)
    ensures Reassembled(chunks, sha256).Ok? <==> Complete(chunks, sha256)
    ensures Complete(chunks, sha256) ==> Reassembled(chunks, sha256) == Ok(Joined(Sort(chunks, ByIndex)))
  {
    if chunks != [] {
      NoFaultMeans(Sort(chunks, ByIndex), 0, chunks[0].chunkCount, sha256);
      if Complete(chunks, sha256) {
        assert chunks[0] in chunks;
        CompleteSorts(chunks, sha256);
      }
      if Reassembled(chunks, sha256).Ok? {
        SortedIsComplete(chunks, sha256);
      }
    }
  }

  /** What each error says about the chunks. */
  ghost predicate IsFault(chunks: seq<Chunk>, sha256: Bytes -> string, e: ChunkError) {
    match e
    case NoChunks => chunks == []
    case WrongCount(expected, received) =>
      chunks != [] && expected == chunks[0].chunkCount && received == |chunks| != expected
    case Missing(i) =>
      (forall k :: 0 <= k < i ==> HasIndex(chunks, k)) && exists k :: 0 <= k < |chunks| && !HasIndex(chunks, k)
    case InconsistentCount(i) => exists c :: c in chunks && c.chunkIndex == i && c.chunkCount != |chunks|
    case Corrupt(i, expectedHash, actualHash) =>
      expectedHash != actualHash && IsCorrupt(chunks, sha256, i, expectedHash, actualHash)
  }

  ghost predicate IsCorrupt(chunks: seq<Chunk>, sha256: Bytes -> string, i: int, stored: string, actual: string) {
    exists c :: c in chunks && c.chunkIndex == i && c.chunkHash == stored && sha256(c.payload) == actual
  }

  /** The fault that is found first, among the sorted chunks. */
  lemma {:induction false} FirstFaultAt(sorted: seq<Chunk>, i: nat, count: int, sha256: Bytes -> string)
    returns (k: nat)
    requires i <= |sorted| && FirstFault(sorted, i, count, sha256).Some?
    ensures i <= k < |sorted| && (forall j :: i <= j < k ==> sorted[j].chunkIndex == j)
    ensures FirstFault(sorted, i, count, sha256) == FirstFault(sorted, k, count, sha256)
    ensures !Labelled(sorted[k], k, count, sha256)
    decreases |sorted| - i
  {
    if Labelled(sorted[i], i, count, sha256) {
      k := FirstFaultAt(sorted, i + 1, count, sha256);
    } else {
      k := i;
    }
  }

  /** A refused set of chunks has the fault it is refused for. */
  lemma FaultIsReal(chunks: seq<Chunk>, sha256: Bytes -> string)
    ensures Reassembled(chunks, sha256).Err? ==> IsFault(chunks, sha256, Reassembled(chunks, sha256).error)
  {
    var sorted := Sort(chunks, ByIndex);
    SortKeepsElements(chunks, ByIndex);
    SameMembers(sorted, chunks);
    if chunks != [] && |chunks| == chunks[0].chunkCount && FirstFault(sorted, 0, |chunks|, sha256).Some? {
      var k := FirstFaultAt(sorted, 0, |chunks|, sha256);
      assert sorted[k] in chunks;
      if sorted[k].chunkIndex != k {
        GapIsReal(chunks, sorted, k);
      }
    }
  }

  lemma GapIsReal(chunks: seq<Chunk>, sorted: seq<Chunk>, k: nat)
    requires sorted == Sort(chunks, ByIndex) && |sorted| == |chunks| && forall c :: c in sorted <==> c in chunks
    requires k < |sorted| && sorted[k].chunkIndex != k && forall j :: 0 <= j < k ==> sorted[j].chunkIndex == j
    ensures forall j :: 0 <= j < k ==> HasIndex(chunks, j)
    ensures exists j :: 0 <= j < |chunks| && !HasIndex(chunks, j)
  {
    forall j | 0 <= j < k ensures HasIndex(chunks, j) {
      assert sorted[j] in chunks;
    }
    if forall j :: 0 <= j < |chunks| ==> HasIndex(chunks, j) {
      ByIndexIsStrictWeakOrder();
      SortSorts(chunks, ByIndex);
      forall j | 0 <= j < |sorted| ensures HasIndex(sorted, j) {
        assert HasIndex(chunks, j);
      }
      AtMost(sorted, |sorted|);
      AtLeast(sorted, 0);
    }
  }

  // ------------------------------------------------------------ round trip

  lemma ChunksAreComplete(data: Bytes, maxSize: int, sha256: Bytes -> string, chunks: seq<Chunk>)
    requires AreChunks(data, maxSize, sha256, chunks)
    ensures Complete(chunks, sha256) && Sorted(chunks, ByIndex) && Untied(multiset(chunks), ByIndex)
  {
    forall i | 0 <= i < |chunks| ensures HasIndex(chunks, i) {
      assert chunks[i] in chunks && Labelled(chunks[i], i, |chunks|, sha256);
    }
    forall c | c in chunks ensures c.chunkCount == |chunks| && c.chunkHash == sha256(c.payload) {
      var i :| 0 <= i < |chunks| && chunks[i] == c;
      assert Labelled(chunks[i], i, |chunks|, sha256);
    }
    forall i, j | 0 <= i < j < |chunks| ensures !ByIndex(chunks[j], chunks[i]) {
      assert Labelled(chunks[i], i, |chunks|, sha256) && Labelled(chunks[j], j, |chunks|, sha256);
    }
    forall x, y | x in multiset(chunks) && y in multiset(chunks) && x != y ensures ByIndex(x, y) || ByIndex(y, x) {
      assert x in chunks && y in chunks;
      var i :| 0 <= i < |chunks| && chunks[i] == x;
      var j :| 0 <= j < |chunks| && chunks[j] == y;
      assert Labelled(chunks[i], i, |chunks|, sha256) && Labelled(chunks[j], j, |chunks|, sha256);
    }
  }

  lemma CompleteInAnyOrder(a: seq<Chunk>, b: seq<Chunk>, sha256: Bytes -> string)
    requires Complete(a, sha256) && multiset(a) == multiset(b)
    ensures Complete(b, sha256)
  {
    SameMembers(a, b);
    forall i | 0 <= i < |b| ensures HasIndex(b, i) {
      assert HasIndex(a, i);
    }
  }

  /** The chunks of a payload, received in any order, give the payload back. */
  lemma ReassemblyInvertsChunking(data: Bytes, maxSize: int, sha256: Bytes -> string, chunks: seq<Chunk>,
                                  received: seq<Chunk>)
    requires AreChunks(data, maxSize, sha256, chunks) && multiset(received) == multiset(chunks)
    ensures Reassembled(received, sha256) == Ok(data)
  {
    ChunksAreComplete(data, maxSize, sha256, chunks);
    CompleteInAnyOrder(chunks, received, sha256);
    AcceptedExactly(received, sha256);
    ByIndexIsStrictWeakOrder();
    SortSorts(received, ByIndex);
    SortKeepsElements(received, ByIndex);
    SortedUnique(Sort(received, ByIndex), chunks, ByIndex);
  }

  // ---------------------------------------------------------------- bounds

  function TotalLength(chunks: seq<Chunk>): nat {
    if chunks == [] then 0 else TotalLength(chunks[..|chunks| - 1]) + |chunks[|chunks| - 1].payload|
  }

  lemma {:induction false} JoinedLength(chunks: seq<Chunk>)
    ensures |Joined(chunks)| == TotalLength(chunks)
  {
    if chunks != [] {
      JoinedLength(chunks[..|chunks| - 1]);
    }
  }

  lemma {:induction false} FullLength(chunks: seq<Chunk>, size: int)
    requires size >= 1 && forall i :: 0 <= i < |chunks| ==> |chunks[i].payload| == size
    ensures TotalLength(chunks) == Times(|chunks|, size)
  {
    if chunks != [] {
      FullLength(chunks[..|chunks| - 1], size);
    }
  }

  /** No chunk is larger than allowed, none is wasted, and together they are as long as the payload. */
  lemma ChunksFit(data: Bytes, maxSize: int, sha256: Bytes -> string, chunks: seq<Chunk>)
    requires maxSize >= 1 && AreChunks(data, maxSize, sha256, chunks)
    ensures forall i :: 0 <= i < |chunks| ==> |chunks[i].payload| <= maxSize
    ensures TotalLength(chunks) == |data|
    ensures |chunks| == ChunkCount(|data|, maxSize)
  {
    var n := |chunks| - 1;
    JoinedLength(chunks);
    FullLength(chunks[..n], maxSize);
    CountIsExact(|data|, maxSize, n);
  }

  lemma CountIsExact(length: nat, maxSize: int, n: nat)
    requires maxSize >= 1 && Times(n, maxSize) <= length <= Times(n, maxSize) + maxSize
    requires length == Times(n, maxSize) ==> length == 0
    ensures ChunkCount(length, maxSize) == n + 1
  {
    var count := ChunkCount(length, maxSize);
    CountCovers(length, maxSize);
    if n + 1 < count {
      TimesGrows(n + 1, count - 1, maxSize);
    }
    if count < n + 1 {
      TimesGrows(count, n, maxSize);
    }
  }
}
