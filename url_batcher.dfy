/** `UrlBatcher.splitUrlsIntoBatches`: cutting a list of URLs into
    consecutive batches of a fixed size. */
module UrlBatcher {

  function Min(a: int, b: int): int {
    if a <= b then a else b
  }

  /** A reference definition of the batches: the first `size` URLs, then
      the batches of the rest; a list no longer than `size` is one batch. */
  function Batches(urls: seq<string>, size: int): seq<seq<string>>
    requires size > 0
    decreases |urls|
  {
    if urls == [] then []
    else if |urls| <= size then [urls]
    else [urls[..size]] + Batches(urls[size..], size)
  }

  /** The batches put back together, in order. */
  function Concat(batches: seq<seq<string>>): seq<string>
    decreases |batches|
  {
    if batches == [] then [] else batches[0] + Concat(batches[1..])
  }

  /** The loop steps through the list `batchSize` at a time and pushes the
      slice that starts there; the last slice is cut short by the end of the
      list. With a size that is not positive the loop ends only on an empty
      list. */
  method SplitUrlsIntoBatches(urls: seq<string>, batchSize: int) returns (batches: seq<seq<string>>)
    requires batchSize > 0 || urls == []
    ensures batchSize > 0 ==> batches == Batches(urls, batchSize)
    ensures batchSize > 0 ==> Concat(batches) == urls && WellSized(batches, batchSize)
    ensures urls == [] ==> batches == []
  {
    batches := [];
    var i := 0;
    while i < |urls|
      invariant urls != [] ==> batchSize > 0
      invariant 0 <= i
      invariant urls == [] ==> batches == []
      invariant batchSize > 0 && i <= |urls| ==>
        batches + Batches(urls[i..], batchSize) == Batches(urls, batchSize)
      invariant batchSize > 0 && i > |urls| ==> batches == Batches(urls, batchSize)
      decreases |urls| - i
    {
      var batch := urls[i..Min(i + batchSize, |urls|)];
      var rest := urls[i..];
      if |rest| <= batchSize {
        assert batch == rest;
        assert Batches(rest, batchSize) == [batch];
        if i + batchSize == |urls| {
          assert urls[i + batchSize..] == [];
        }
      } else {
        assert batch == rest[..batchSize];
        assert rest[batchSize..] == urls[i + batchSize..];
        assert Batches(rest, batchSize) == [batch] + Batches(urls[i + batchSize..], batchSize);
        assert (batches + [batch]) + Batches(urls[i + batchSize..], batchSize) ==
          batches + ([batch] + Batches(urls[i + batchSize..], batchSize));
      }
      batches := batches + [batch];
      i := i + batchSize;
    }
    if batchSize > 0 {
      if i <= |urls| {
        assert urls[i..] == [];
        assert batches + [] == batches;
      }
      BatchesConcat(urls, batchSize);
      BatchesSizes(urls, batchSize);
    }
  }

  /** Putting the batches back together gives the list. */
  lemma {:induction false} BatchesConcat(urls: seq<string>, size: int)
    requires size > 0
    ensures Concat(Batches(urls, size)) == urls
    decreases |urls|
  {
    if urls != [] && |urls| > size {
      var tail := Batches(urls[size..], size);
      BatchesConcat(urls[size..], size);
      assert ([urls[..size]] + tail)[1..] == tail;
      assert urls[..size] + urls[size..] == urls;
    }
  }

  /** Every batch holds between one and `size` URLs, and every batch but
      the last holds exactly `size`. */
  predicate WellSized(batches: seq<seq<string>>, size: int) {
    (forall k | 0 <= k < |batches| :: 0 < |batches[k]| <= size) &&
    (forall k | 0 <= k < |batches| - 1 :: |batches[k]| == size)
  }

  lemma {:induction false} BatchesSizes(urls: seq<string>, size: int)
    requires size > 0
    ensures WellSized(Batches(urls, size), size)
    decreases |urls|
  {
    if urls != [] && |urls| > size {
      var tail := Batches(urls[size..], size);
      BatchesSizes(urls[size..], size);
      var b := Batches(urls, size);
      assert b == [urls[..size]] + tail;
      assert tail != [];
      forall k | 0 <= k < |b|
        ensures 0 < |b[k]| <= size && (k < |b| - 1 ==> |b[k]| == size)
      {
        if k > 0 {
          assert b[k] == tail[k - 1];
        }
      }
    }
  }

  /** There are as many batches as `size` goes into the length, rounded
      up: `count * size` reaches the length and `(count - 1) * size` does
      not. */
  lemma {:induction false} BatchesCount(urls: seq<string>, size: int)
    requires size > 0
    ensures var count := |Batches(urls, size)|;
      |urls| <= count * size && (urls != [] ==> (count - 1) * size < |urls|) && (urls == [] ==> count == 0)
    decreases |urls|
  {
    if urls != [] && |urls| > size {
      BatchesCount(urls[size..], size);
      var count := |Batches(urls[size..], size)|;
      assert |Batches(urls, size)| == count + 1;
      assert (count + 1) * size == count * size + size;
      assert count * size == (count - 1) * size + size;
    }
  }

  /** Ten URLs in batches of four: `[4, 4, 2]`. */
  lemma TenInBatchesOfFour(urls: seq<string>)
    requires |urls| == 10
    ensures Batches(urls, 4) == [urls[..4], urls[4..8], urls[8..]]
  {
    var rest := urls[4..];
    assert rest[..4] == urls[4..8];
    assert rest[4..] == urls[8..];
    assert Batches(rest[4..], 4) == [urls[8..]];
    assert Batches(rest, 4) == [urls[4..8], urls[8..]];
  }
}
