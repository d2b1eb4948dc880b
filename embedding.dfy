/**
 * server/services/embeddingService.js: the word-window text chunker and the
 * embedding call with its truncation and zero-vector fallback. Cosine
 * similarity is not modelled here: callers receive it as an uninterpreted
 * score function.
 */
module EmbeddingService {
  import opened Wrappers
  import opened Text

  /** Only this many characters of the input are sent to the embedding provider. */
  const EmbeddingInputLimit: nat := 6000

  /** Length of the fallback vector (the provider's embedding dimension). */
  const EmbeddingDimension: nat := 1536

  /** Default window of `chunkText`, in words. */
  const DefaultChunkSize: nat := 500

  /** Default overlap of consecutive windows, in words. */
  const DefaultOverlap: int := 50

  /** What the embedding provider answered: an error, or its `data` list of vectors. */
  datatype ProviderReply = ProviderFailed(message: string) | Embeddings(data: seq<seq<real>>)

  /** `new Array(n).fill(0)`. */
  function ZeroVector(n: nat): (v: seq<real>)
    ensures |v| == n && forall i :: 0 <= i < n ==> v[i] == 0.0
  {
    seq(n, i => 0.0)
  }

  /** `createEmbedding(text)`: asks the provider about the first 6000 characters only and
      returns `data[0]`; a failed call, or a reply without data, gives 1536 zeros instead. */
  function CreateEmbedding(text: string, provider: string -> ProviderReply): (v: seq<real>)
    ensures provider(Prefix(text, EmbeddingInputLimit)).Embeddings?
            && |provider(Prefix(text, EmbeddingInputLimit)).data| > 0
            ==> v == provider(Prefix(text, EmbeddingInputLimit)).data[0]
    ensures !(provider(Prefix(text, EmbeddingInputLimit)).Embeddings?
              && |provider(Prefix(text, EmbeddingInputLimit)).data| > 0)
            ==> |v| == EmbeddingDimension && forall i :: 0 <= i < |v| ==> v[i] == 0.0
  {
    match provider(Prefix(text, EmbeddingInputLimit))
    case Embeddings(data) => if |data| > 0 then data[0] else ZeroVector(EmbeddingDimension)
    case ProviderFailed(_) => ZeroVector(EmbeddingDimension)
  }

  /** Characters beyond the first 6000 never influence the embedding. */
  lemma EmbeddingIgnoresTail(text: string, tail: string, provider: string -> ProviderReply)
    requires |text| >= EmbeddingInputLimit
    ensures CreateEmbedding(text + tail, provider) == CreateEmbedding(text, provider)
  {
    assert Prefix(text + tail, EmbeddingInputLimit) == Prefix(text, EmbeddingInputLimit) by {
      assert (text + tail)[..EmbeddingInputLimit] == text[..EmbeddingInputLimit];
    }
  }

  /** One element of `chunkText`'s result: a window of words and its word offsets. */
  datatype TextChunk = TextChunk(text: string, startIndex: nat, endIndex: nat)

  /** The window of at most `size` words starting at word `i`, joined by single spaces. */
  function Window(words: seq<string>, size: nat, i: nat): TextChunk
    requires i < |words|
  {
    var end := Min(i + size, |words|);
    TextChunk(Join(words[i..end], " "), i, end)
  }

  /** The loop's start positions from `i` on: `i, i + step, i + 2·step, …` while below `n`. */
  function Starts(n: nat, step: nat, i: nat): (r: seq<nat>)
    requires step > 0
    ensures forall k :: 0 <= k < |r| ==> i <= r[k] < n
    ensures forall a, b :: 0 <= a < b < |r| ==> r[a] < r[b]
    decreases n - i
  {
    if i >= n then [] else [i] + Starts(n, step, i + step)
  }

  /** The distance between consecutive window starts. */
  function Step(size: nat, overlap: int): nat
    requires overlap < size
  {
    size - overlap
  }

  /** The window is kept: its text is not blank, i.e. `chunk.trim().length > 0`
      (see `TrimEmptyIffBlank`). */
  predicate Kept(c: TextChunk)
  {
    !Blank(c.text)
  }

  /** The chunks `chunkText` emits from start position `i` on: every visited window whose
      joined text is not blank after trimming, in visiting order. */
  function ChunksFrom(words: seq<string>, size: nat, overlap: int, i: nat): seq<TextChunk>
    requires overlap < size
    decreases |words| - i
  {
    if i >= |words| then []
    else
      var w := Window(words, size, i);
      (if Kept(w) then [w] else []) + ChunksFrom(words, size, overlap, i + Step(size, overlap))
  }

  /** `ChunksFrom` from a start below the word count: the window there (when kept), then the rest. */
  lemma ChunksFromUnfold(words: seq<string>, size: nat, overlap: int, i: nat)
    requires overlap < size && i < |words|
    ensures ChunksFrom(words, size, overlap, i)
      == (if Kept(Window(words, size, i)) then [Window(words, size, i)] else [])
         + ChunksFrom(words, size, overlap, i + Step(size, overlap))
  {
  }

  /** Chunk `c` is the kept window of `words` starting at `c.startIndex`. */
  predicate IsKeptWindow(words: seq<string>, size: nat, c: TextChunk)
  {
    c.startIndex < |words| && c == Window(words, size, c.startIndex) && Kept(c)
  }

  /** Every emitted chunk is the kept window at one of the visited starts, and the chunks
      come in strictly increasing start order, at most one per visited start. */
  lemma {:induction false} ChunksFromShape(words: seq<string>, size: nat, overlap: int, i: nat)
    requires overlap < size
    ensures forall k :: 0 <= k < |ChunksFrom(words, size, overlap, i)| ==>
      ChunksFrom(words, size, overlap, i)[k].startIndex in Starts(|words|, Step(size, overlap), i)
      && IsKeptWindow(words, size, ChunksFrom(words, size, overlap, i)[k])
    ensures forall a, b :: 0 <= a < b < |ChunksFrom(words, size, overlap, i)| ==>
      ChunksFrom(words, size, overlap, i)[a].startIndex < ChunksFrom(words, size, overlap, i)[b].startIndex
    ensures |ChunksFrom(words, size, overlap, i)| <= |Starts(|words|, Step(size, overlap), i)|
    decreases |words| - i
  {
    if i < |words| {
      var step := Step(size, overlap);
      ChunksFromShape(words, size, overlap, i + step);
      ChunksFromUnfold(words, size, overlap, i);
      var w := Window(words, size, i);
      var here := if Kept(w) then [w] else [];
      var st := Starts(|words|, step, i);
      assert st == [i] + Starts(|words|, step, i + step);
      PrependSorted(here, ChunksFrom(words, size, overlap, i + step), st, c => IsKeptWindow(words, size, c));
    }
  }

  /** Prepending at most one good chunk that starts at `st[0]` to good chunks at later
      starts of `st`, in increasing order, gives good chunks in increasing order. */
  lemma PrependSorted(here: seq<TextChunk>, rest: seq<TextChunk>, st: seq<nat>, good: TextChunk -> bool)
    requires |st| > 0
    requires |here| <= 1 && (|here| == 1 ==> here[0].startIndex == st[0] && good(here[0]))
    requires forall k :: 0 <= k < |rest| ==> rest[k].startIndex in st[1..] && good(rest[k])
    requires forall k :: 0 <= k < |rest| ==> rest[k].startIndex > st[0]
    requires forall a, b :: 0 <= a < b < |rest| ==> rest[a].startIndex < rest[b].startIndex
    requires |rest| <= |st| - 1
    ensures forall k :: 0 <= k < |here + rest| ==> (here + rest)[k].startIndex in st && good((here + rest)[k])
    ensures forall a, b :: 0 <= a < b < |here + rest| ==> (here + rest)[a].startIndex < (here + rest)[b].startIndex
    ensures |here + rest| <= |st|
  {
    var r := here + rest;
    assert st == [st[0]] + st[1..];
    forall k | 0 <= k < |r| ensures r[k].startIndex in st && good(r[k]) {
      if k >= |here| { assert r[k] == rest[k - |here|]; }
    }
    forall a, b | 0 <= a < b < |r| ensures r[a].startIndex < r[b].startIndex {
      assert r[b] == rest[b - |here|];
      if a >= |here| { assert r[a] == rest[a - |here|]; }
    }
  }

  /** The chunks of a whole word sequence. */
  function ChunksOf(words: seq<string>, size: nat, overlap: int): seq<TextChunk>
    requires overlap < size
  {
    ChunksFrom(words, size, overlap, 0)
  }

  /** `chunkText(text, chunkSize, overlap)`: the loop of the source. It terminates only
      because the step `chunkSize - overlap` is positive, which is why that is required. */
  method ChunkText(text: string, chunkSize: nat, overlap: int) returns (chunks: seq<TextChunk>)
    requires overlap < chunkSize
    ensures chunks == ChunksOf(Split(text), chunkSize, overlap)
    ensures forall k :: 0 <= k < |chunks| ==>
      chunks[k].startIndex < chunks[k].endIndex <= |Split(text)|
      && chunks[k].endIndex - chunks[k].startIndex <= chunkSize
      && chunks[k].text == Join(Split(text)[chunks[k].startIndex..chunks[k].endIndex], " ")
    ensures forall a, b :: 0 <= a < b < |chunks| ==> chunks[a].startIndex < chunks[b].startIndex
  {
    chunks := [];
    var words := Split(text);
    var i: nat := 0;
    while i < |words|
      invariant chunks + ChunksFrom(words, chunkSize, overlap, i) == ChunksOf(words, chunkSize, overlap)
      decreases |words| - i
    {
      var end := Min(i + chunkSize, |words|);
      var chunk := Join(words[i..end], " ");
      ghost var w := Window(words, chunkSize, i);
      assert TextChunk(chunk, i, end) == w;
      ghost var rest := ChunksFrom(words, chunkSize, overlap, i + Step(chunkSize, overlap));
      ChunksFromUnfold(words, chunkSize, overlap, i);
      TrimEmptyIffBlank(chunk);
      if |Trim(chunk)| > 0 {
        assert (chunks + [w]) + rest == chunks + ([w] + rest);
        chunks := chunks + [TextChunk(chunk, i, end)];
      } else {
        assert [] + rest == rest;
      }
      i := i + Step(chunkSize, overlap);
    }
    ChunksOfBounds(words, chunkSize, overlap);
  }

  /** Every chunk spans between one and `size` words of `words` and holds exactly those
      words joined by spaces; the chunks come in increasing start order. */
  lemma ChunksOfBounds(words: seq<string>, size: nat, overlap: int)
    requires overlap < size
    ensures forall k :: 0 <= k < |ChunksOf(words, size, overlap)| ==>
      ChunksOf(words, size, overlap)[k].startIndex < ChunksOf(words, size, overlap)[k].endIndex <= |words|
      && ChunksOf(words, size, overlap)[k].endIndex - ChunksOf(words, size, overlap)[k].startIndex <= size
      && ChunksOf(words, size, overlap)[k].endIndex == Min(ChunksOf(words, size, overlap)[k].startIndex + size, |words|)
      && ChunksOf(words, size, overlap)[k].text
         == Join(words[ChunksOf(words, size, overlap)[k].startIndex..ChunksOf(words, size, overlap)[k].endIndex], " ")
    ensures forall a, b :: 0 <= a < b < |ChunksOf(words, size, overlap)| ==>
      ChunksOf(words, size, overlap)[a].startIndex < ChunksOf(words, size, overlap)[b].startIndex
  {
    var r := ChunksOf(words, size, overlap);
    ChunksFromShape(words, size, overlap, 0);
    forall k | 0 <= k < |r|
      ensures r[k].startIndex < r[k].endIndex <= |words|
      ensures r[k].endIndex - r[k].startIndex <= size
      ensures r[k].endIndex == Min(r[k].startIndex + size, |words|)
      ensures r[k].text == Join(words[r[k].startIndex..r[k].endIndex], " ")
    {
      assert IsKeptWindow(words, size, r[k]);
      ChunkIsNonEmptyWindow(words, size, overlap, r[k]);
    }
  }

  /** `chunkText` with its default window of 500 words and overlap of 50. */
  method ChunkTextDefault(text: string) returns (chunks: seq<TextChunk>)
    ensures chunks == ChunksOf(Split(text), DefaultChunkSize, DefaultOverlap)
  {
    chunks := ChunkText(text, DefaultChunkSize, DefaultOverlap);
  }

  /** An emitted chunk spans between one and `size` words, ending at `min(start + size, n)`. */
  lemma ChunkIsNonEmptyWindow(words: seq<string>, size: nat, overlap: int, c: TextChunk)
    requires overlap < size
    requires c in ChunksOf(words, size, overlap)
    ensures c.startIndex < c.endIndex <= |words|
    ensures c.endIndex - c.startIndex <= size
    ensures c.endIndex == Min(c.startIndex + size, |words|)
  {
    var r := ChunksOf(words, size, overlap);
    ChunksFromShape(words, size, overlap, 0);
    var k :| 0 <= k < |r| && r[k] == c;
    assert Kept(c);
  }

  /** The `m`-th start position is `i + m·step`, and there are `ceil((n - i) / step)` of them. */
  lemma {:induction false} StartsAt(n: nat, step: nat, i: nat, m: nat)
    requires step > 0
    requires m < |Starts(n, step, i)|
    ensures Starts(n, step, i)[m] == i + m * step
    decreases n - i
  {
    if m > 0 {
      StartsAt(n, step, i + step, m - 1);
      assert (m - 1) * step + step == m * step;
    }
  }

  /** The number of visited windows `c` is the least with `c·step ≥ n - i`. */
  lemma {:induction false} StartsCount(n: nat, step: nat, i: nat)
    requires step > 0 && i < n
    ensures |Starts(n, step, i)| * step >= n - i
    ensures (|Starts(n, step, i)| - 1) * step < n - i
    decreases n - i
  {
    var c := |Starts(n, step, i)|;
    if i + step < n {
      StartsCount(n, step, i + step);
      assert c == |Starts(n, step, i + step)| + 1;
      assert c * step == |Starts(n, step, i + step)| * step + step;
    } else {
      assert c == 1;
    }
  }

  /** With `0 <= overlap < size`, every word index lies inside some visited window;
      `s` is the start of one such window. */
  lemma {:induction false} StartsCover(n: nat, size: nat, overlap: int, i: nat, j: nat) returns (s: nat)
    requires 0 <= overlap < size
    requires i <= j < n
    ensures s in Starts(n, Step(size, overlap), i) && s <= j < s + size
    decreases n - i
  {
    var step := Step(size, overlap);
    assert Starts(n, step, i) == [i] + Starts(n, step, i + step);
    if j >= i + step {
      s := StartsCover(n, size, overlap, i + step, j);
    } else {
      s := i;
    }
  }

  /** A visited window whose text is not blank is emitted. */
  lemma {:induction false} KeptWindowEmitted(words: seq<string>, size: nat, overlap: int, i: nat, s: nat)
    requires overlap < size
    requires s in Starts(|words|, Step(size, overlap), i)
    requires Kept(Window(words, size, s))
    ensures Window(words, size, s) in ChunksFrom(words, size, overlap, i)
    decreases |words| - i
  {
    var step := Step(size, overlap);
    ChunksFromUnfold(words, size, overlap, i);
    assert Starts(|words|, step, i) == [i] + Starts(|words|, step, i + step);
    if s != i {
      KeptWindowEmitted(words, size, overlap, i + step, s);
    }
  }

  /** A visited window is emitted exactly when its joined text is not blank. */
  lemma EmittedIffNotBlank(words: seq<string>, size: nat, overlap: int, i: nat, s: nat)
    requires overlap < size
    requires s in Starts(|words|, Step(size, overlap), i)
    ensures Window(words, size, s) in ChunksFrom(words, size, overlap, i) <==> !Blank(Window(words, size, s).text)
  {
    var r := ChunksFrom(words, size, overlap, i);
    var w := Window(words, size, s);
    if w in r {
      ChunksFromShape(words, size, overlap, i);
      var k :| 0 <= k < |r| && r[k] == w;
      assert IsKeptWindow(words, size, r[k]);
    } else if Kept(w) {
      KeptWindowEmitted(words, size, overlap, i, s);
    }
  }

  /** A window is dropped exactly when every word in it is blank. */
  lemma WindowBlankIffWordsBlank(words: seq<string>, size: nat, s: nat)
    requires s < |words|
    ensures Blank(Window(words, size, s).text)
      <==> forall j :: s <= j < Min(s + size, |words|) ==> Blank(words[j])
  {
    var end := Min(s + size, |words|);
    JoinBlankIffAllBlank(words[s..end]);
    forall j | s <= j < end ensures words[j] == words[s..end][j - s] {}
  }

  /** Every word that is not blank lies inside some emitted chunk (given `0 <= overlap`). */
  lemma ChunksCoverWords(words: seq<string>, size: nat, overlap: int, j: nat)
    requires 0 <= overlap < size
    requires j < |words| && !Blank(words[j])
    ensures exists c :: c in ChunksOf(words, size, overlap) && c.startIndex <= j < c.endIndex
  {
    var s := StartsCover(|words|, size, overlap, 0, j);
    WindowBlankIffWordsBlank(words, size, s);
    EmittedIffNotBlank(words, size, overlap, 0, s);
  }

  /** For the words of a `split(/\s+/)`, a window is dropped exactly when all its words are
      empty strings (which happens only for the pieces that leading or trailing white space
      produces). */
  lemma SplitWindowDroppedIffEmpty(text: string, size: nat, overlap: int, s: nat)
    requires overlap < size
    requires s in Starts(|Split(text)|, Step(size, overlap), 0)
    ensures Window(Split(text), size, s) in ChunksOf(Split(text), size, overlap)
      <==> exists j :: s <= j < Min(s + size, |Split(text)|) && Split(text)[j] != ""
  {
    var words := Split(text);
    SplitNoSpace(text);
    WindowBlankIffWordsBlank(words, size, s);
    EmittedIffNotBlank(words, size, overlap, 0, s);
    forall j | s <= j < Min(s + size, |words|) ensures Blank(words[j]) <==> words[j] == "" {
      if words[j] != "" { assert !IsSpace(words[j][0]); }
    }
  }

  /** Five words with a window of 3 and an overlap of 1 yield three chunks: the last window
      `[4, 5)` is emitted although it lies inside the previous one. */
  lemma TrailingWindowKept()
    ensures ChunksOf(["a", "b", "c", "d", "e"], 3, 1)
      == [TextChunk("a b c", 0, 3), TextChunk("c d e", 2, 5), TextChunk("e", 4, 5)]
  {
    var words := ["a", "b", "c", "d", "e"];
    assert words[0..3] == ["a", "b", "c"];
    assert words[2..5] == ["c", "d", "e"];
    assert words[4..5] == ["e"];
    assert Join(["a", "b", "c"], " ") == "a b c";
    assert Join(["c", "d", "e"], " ") == "c d e";
    assert Trim("a b c") != [];
    assert Trim("c d e") != [];
    assert Trim("e") != [];
  }
}
