/**
 * `generate_data` of tools/rsync/api_test.go: a buffer of
 * `numOfBlocks` blocks of `blockSize` bytes, each starting with its
 * decimal block number and padded with `_`, followed by the extra strings.
 */
module GenerateData {
  import opened Go
  import opened Utils
  import opened Strconv
  import opened Strings

  const Underscore: Byte := '_'

  /** Offset of block `i`, `i * blockSize`, written as repeated addition to keep proofs linear. */
  function BlockStart(i: nat, blockSize: nat): nat
  {
    if i == 0 then 0 else BlockStart(i - 1, blockSize) + blockSize
  }

  lemma {:induction false} BlockStartIsProduct(i: nat, blockSize: nat)
    ensures BlockStart(i, blockSize) == i * blockSize
  {
    if i > 0 {
      BlockStartIsProduct(i - 1, blockSize);
    }
  }

  /** Later blocks start at or after the end of earlier ones. */
  lemma {:induction false} BlockStartMonotone(i: nat, k: nat, blockSize: nat)
    requires i < k
    ensures BlockStart(i, blockSize) + blockSize <= BlockStart(k, blockSize)
    decreases k
  {
    if i < k - 1 {
      BlockStartMonotone(i, k - 1, blockSize);
    }
  }

  /** The block numbers 0 .. count-1 as `strconv.Itoa` writes them. */
  function Labels(count: nat): (r: seq<seq<Byte>>)
    ensures |r| == count
    ensures forall i :: 0 <= i < count ==> r[i] == Itoa(i)
  {
    seq(count, i => Itoa(i))
  }

  /** Every label is at most one block long. */
  predicate FitInBlocks(labels: seq<seq<Byte>>, blockSize: nat) {
    forall k :: 0 <= k < |labels| ==> |labels[k]| <= blockSize
  }

  /** The buffer `buf` after each `labels[i]` was copied to the start of block `i`, in order. */
  function Labelled(buf: seq<Byte>, blockSize: nat, labels: seq<seq<Byte>>): (r: seq<Byte>)
    requires BlockStart(|labels|, blockSize) <= |buf|
    ensures |r| == |buf|
    decreases |labels|
  {
    if |labels| == 0 then buf
    else
      var c := |labels| - 1;
      Overwrite(Labelled(buf, blockSize, labels[..c]), BlockStart(c, blockSize), labels[c])
  }

  /** A buffer of `len` underscores, as `utils.Memset(ans, '_')` leaves it. */
  function Blank(len: nat): (r: seq<Byte>)
    ensures |r| == len
    ensures forall k :: 0 <= k < len ==> r[k] == Underscore
  {
    seq(len, _ => Underscore)
  }

  /**
   * A blank buffer with room for one block per label and the trailer,
   * the labels copied to their blocks and then the trailer copied after the last block.
   */
  function Layout(blockSize: nat, labels: seq<seq<Byte>>, trailer: seq<Byte>): (r: seq<Byte>)
    ensures |r| == BlockStart(|labels|, blockSize) + |trailer|
  {
    var end := BlockStart(|labels|, blockSize);
    Overwrite(Labelled(Blank(end + |trailer|), blockSize, labels), end, trailer)
  }

  /** What `generate_data(blockSize, numOfBlocks, extra...)` returns. */
  function Generated(blockSize: nat, numOfBlocks: nat, extra: seq<seq<Byte>>): (r: seq<Byte>)
    ensures |r| == BlockStart(numOfBlocks, blockSize) + |Join(extra)|
  {
    Layout(blockSize, Labels(numOfBlocks), Join(extra))
  }

  /** Every block number 0 .. count-1 fits in one block: it suffices that the largest does. */
  predicate LabelsFit(blockSize: nat, count: nat) {
    count == 0 || |Itoa(count - 1)| <= blockSize
  }

  lemma LabelsFitInBlocks(blockSize: nat, count: nat)
    requires LabelsFit(blockSize, count)
    ensures FitInBlocks(Labels(count), blockSize)
  {
    forall k | 0 <= k < count
      ensures |Itoa(k)| <= blockSize
    {
      DigitCountMonotone(k, count - 1);
    }
  }

  /** A block as the fixture intends it: its label, then `_` up to the block size. */
  function Padded(text: seq<Byte>, blockSize: nat): (b: seq<Byte>)
    requires |text| <= blockSize
    ensures |b| == blockSize
    ensures b[..|text|] == text
    ensures forall j :: |text| <= j < blockSize ==> b[j] == Underscore
  {
    text + seq(blockSize - |text|, _ => Underscore)
  }

  /** One labelling step: the newest label lands at the start of its block, the rest is the earlier labelling. */
  lemma LabelledStep(buf: seq<Byte>, blockSize: nat, labels: seq<seq<Byte>>, p: nat)
    requires 0 < |labels| && BlockStart(|labels|, blockSize) <= |buf| && FitInBlocks(labels, blockSize)
    requires p < |buf|
    ensures var c := |labels| - 1;
            BlockStart(c, blockSize) <= p < BlockStart(c, blockSize) + |labels[c]| ==>
              Labelled(buf, blockSize, labels)[p] == labels[c][p - BlockStart(c, blockSize)]
    ensures var c := |labels| - 1;
            !(BlockStart(c, blockSize) <= p < BlockStart(c, blockSize) + |labels[c]|) ==>
              Labelled(buf, blockSize, labels)[p] == Labelled(buf, blockSize, labels[..c])[p]
  {
    var c := |labels| - 1;
    var prev := Labelled(buf, blockSize, labels[..c]);
    assert CopyCount(|prev|, BlockStart(c, blockSize), |labels[c]|) == |labels[c]|;
    OverwriteAt(prev, BlockStart(c, blockSize), labels[c], p);
  }

  /** Bytes at or beyond the labelled blocks are untouched by labelling. */
  lemma {:induction false} LabelledBeyond(buf: seq<Byte>, blockSize: nat, labels: seq<seq<Byte>>, p: nat)
    requires BlockStart(|labels|, blockSize) <= p < |buf| && FitInBlocks(labels, blockSize)
    ensures Labelled(buf, blockSize, labels)[p] == buf[p]
    decreases |labels|
  {
    if |labels| > 0 {
      var c := |labels| - 1;
      LabelledStep(buf, blockSize, labels, p);
      LabelledBeyond(buf, blockSize, labels[..c], p);
    }
  }

  /** Byte `j` of block `i` after labelling: the label's byte `j`, or the original byte past the label. */
  lemma {:induction false} LabelledAt(buf: seq<Byte>, blockSize: nat, labels: seq<seq<Byte>>, i: nat, j: nat)
    requires BlockStart(|labels|, blockSize) <= |buf| && FitInBlocks(labels, blockSize)
    requires i < |labels| && j < blockSize
    ensures BlockStart(i, blockSize) + j < |buf|
    ensures Labelled(buf, blockSize, labels)[BlockStart(i, blockSize) + j]
         == if j < |labels[i]| then labels[i][j] else buf[BlockStart(i, blockSize) + j]
    decreases |labels|
  {
    var c := |labels| - 1;
    var prefix := labels[..c];
    var p := BlockStart(i, blockSize) + j;
    var r := Labelled(buf, blockSize, labels);
    if i == c {
      LabelledStep(buf, blockSize, labels, p);
      if j < |labels[i]| {
        assert r[p] == labels[i][j];
      } else {
        LabelledBeyond(buf, blockSize, prefix, p);
        assert r[p] == Labelled(buf, blockSize, prefix)[p] == buf[p];
      }
    } else {
      BlockStartMonotone(i, c, blockSize);
      assert prefix[i] == labels[i];
      LabelledStep(buf, blockSize, labels, p);
      assert r[p] == Labelled(buf, blockSize, prefix)[p];
      LabelledAt(buf, blockSize, prefix, i, j);
    }
  }

  /** Labelling one more block number is one more copy, at the start of the next block. */
  lemma LabelsStep(buf: seq<Byte>, blockSize: nat, i: nat)
    requires BlockStart(i + 1, blockSize) <= |buf|
    ensures Labelled(buf, blockSize, Labels(i + 1))
         == Overwrite(Labelled(buf, blockSize, Labels(i)), BlockStart(i, blockSize), Itoa(i))
  {
    assert Labels(i + 1)[..i] == Labels(i);
  }

  /** Copying the trailer after the labelled blocks completes the layout. */
  lemma LayoutLast(blockSize: nat, labels: seq<seq<Byte>>, trailer: seq<Byte>, blank: seq<Byte>, labelled: seq<Byte>)
    requires blank == Blank(BlockStart(|labels|, blockSize) + |trailer|)
    requires labelled == Labelled(blank, blockSize, labels)
    ensures Overwrite(labelled, BlockStart(|labels|, blockSize), trailer) == Layout(blockSize, labels, trailer)
  {
  }

  /** The trailer copy leaves the block region as labelling made it. */
  lemma LayoutBlockRegion(blockSize: nat, labels: seq<seq<Byte>>, trailer: seq<Byte>, p: nat)
    requires p < BlockStart(|labels|, blockSize)
    ensures Layout(blockSize, labels, trailer)[p]
         == Labelled(Blank(BlockStart(|labels|, blockSize) + |trailer|), blockSize, labels)[p]
  {
    var end := BlockStart(|labels|, blockSize);
    OverwriteAt(Labelled(Blank(end + |trailer|), blockSize, labels), end, trailer, p);
  }

  /** The layout ends with the whole trailer. */
  lemma LayoutTrailer(blockSize: nat, labels: seq<seq<Byte>>, trailer: seq<Byte>)
    ensures Layout(blockSize, labels, trailer)[BlockStart(|labels|, blockSize)..] == trailer
  {
    var end := BlockStart(|labels|, blockSize);
    var r := Layout(blockSize, labels, trailer);
    var dst := Labelled(Blank(end + |trailer|), blockSize, labels);
    forall k | 0 <= k < |trailer|
      ensures r[end + k] == trailer[k]
    {
      OverwriteAt(dst, end, trailer, end + k);
    }
  }

  /** Byte `j` of block `i` of the layout is byte `j` of the padded label. */
  lemma LayoutBlockByte(blockSize: nat, labels: seq<seq<Byte>>, trailer: seq<Byte>, i: nat, j: nat)
    requires FitInBlocks(labels, blockSize) && i < |labels| && j < blockSize
    ensures BlockStart(i, blockSize) + j < BlockStart(|labels|, blockSize)
    ensures Layout(blockSize, labels, trailer)[BlockStart(i, blockSize) + j] == Padded(labels[i], blockSize)[j]
  {
    var blank := Blank(BlockStart(|labels|, blockSize) + |trailer|);
    LabelledAt(blank, blockSize, labels, i, j);
    LayoutBlockRegion(blockSize, labels, trailer, BlockStart(i, blockSize) + j);
    var want := Padded(labels[i], blockSize);
    if j < |labels[i]| {
      assert want[..|labels[i]|][j] == labels[i][j];
    }
  }

  /** When every label fits its block, block `i` of the layout is label `i` padded with `_`. */
  lemma LayoutBlock(blockSize: nat, labels: seq<seq<Byte>>, trailer: seq<Byte>, i: nat)
    requires FitInBlocks(labels, blockSize) && i < |labels|
    ensures BlockStart(i, blockSize) + blockSize <= BlockStart(|labels|, blockSize)
    ensures Layout(blockSize, labels, trailer)[BlockStart(i, blockSize)..BlockStart(i, blockSize) + blockSize]
         == Padded(labels[i], blockSize)
  {
    if i + 1 < |labels| {
      BlockStartMonotone(i + 1, |labels|, blockSize);
    }
    var r := Layout(blockSize, labels, trailer);
    var want := Padded(labels[i], blockSize);
    var lo := BlockStart(i, blockSize);
    forall j | 0 <= j < blockSize
      ensures r[lo + j] == want[j]
    {
      LayoutBlockByte(blockSize, labels, trailer, i, j);
    }
    assert r[lo..lo + blockSize] == want;
  }

  /** The buffer is exactly `numOfBlocks * blockSize` plus the extras' total length long. */
  lemma GeneratedLength(blockSize: nat, numOfBlocks: nat, extra: seq<seq<Byte>>)
    ensures |Generated(blockSize, numOfBlocks, extra)| == numOfBlocks * blockSize + TotalLength(extra)
  {
    BlockStartIsProduct(numOfBlocks, blockSize);
  }

  /** The buffer ends with the extra strings concatenated in argument order. */
  lemma GeneratedTrailer(blockSize: nat, numOfBlocks: nat, extra: seq<seq<Byte>>)
    ensures numOfBlocks * blockSize <= |Generated(blockSize, numOfBlocks, extra)|
    ensures Generated(blockSize, numOfBlocks, extra)[numOfBlocks * blockSize..] == Join(extra)
  {
    BlockStartIsProduct(numOfBlocks, blockSize);
    LayoutTrailer(blockSize, Labels(numOfBlocks), Join(extra));
  }

  /**
   * When every block number fits in a block, block `i` holds the digits
   * of `i` followed by `_` padding.
   */
  lemma GeneratedBlock(blockSize: nat, numOfBlocks: nat, extra: seq<seq<Byte>>, i: nat)
    requires LabelsFit(blockSize, numOfBlocks)
    requires i < numOfBlocks
    ensures |Itoa(i)| <= blockSize
    ensures i * blockSize == BlockStart(i, blockSize)
    ensures i * blockSize + blockSize <= |Generated(blockSize, numOfBlocks, extra)|
    ensures Generated(blockSize, numOfBlocks, extra)[i * blockSize..i * blockSize + blockSize]
         == Padded(Itoa(i), blockSize)
  {
    LabelsFitInBlocks(blockSize, numOfBlocks);
    LayoutBlock(blockSize, Labels(numOfBlocks), Join(extra), i);
    BlockStartIsProduct(i, blockSize);
  }

  /** The loop of `generate_data`: copy block number `i` to offset `i * blockSize` for every block. */
  method WriteLabels(ans: array<Byte>, blockSize: nat, numOfBlocks: nat)
    requires BlockStart(numOfBlocks, blockSize) <= ans.Length
    modifies ans
    ensures ans[..] == Labelled(old(ans[..]), blockSize, Labels(numOfBlocks))
  {
    ghost var blank := ans[..];
    var i := 0;
    while i < numOfBlocks
      invariant 0 <= i <= numOfBlocks
      invariant BlockStart(i, blockSize) <= ans.Length
      invariant ans[..] == Labelled(blank, blockSize, Labels(i))
    {
      var offset := i * blockSize;
      assert offset == BlockStart(i, blockSize) by {
        BlockStartIsProduct(i, blockSize);
      }
      if i + 1 < numOfBlocks {
        BlockStartMonotone(i + 1, numOfBlocks, blockSize);
      }
      var _ := Copy(ans, offset, Itoa(i));
      LabelsStep(blank, blockSize, i);
      i := i + 1;
    }
  }

  /** `generate_data`: allocate, fill with `_`, copy each block number in, then the trailer. */
  method GenerateData(blockSize: nat, numOfBlocks: nat, extra: seq<seq<Byte>>) returns (ans: array<Byte>)
    ensures fresh(ans)
    ensures ans[..] == Generated(blockSize, numOfBlocks, extra)
  {
    var e := Join(extra);
    var end := numOfBlocks * blockSize;
    assert end == BlockStart(numOfBlocks, blockSize) by {
      BlockStartIsProduct(numOfBlocks, blockSize);
    }
    ans := new Byte[end + |e|];
    Memset(ans, Underscore);
    ghost var labels := Labels(numOfBlocks);
    ghost var blank := ans[..];
    assert blank == Blank(BlockStart(|labels|, blockSize) + |e|);
    WriteLabels(ans, blockSize, numOfBlocks);
    ghost var labelled := ans[..];
    LayoutLast(blockSize, labels, e, blank, labelled);
    var _ := Copy(ans, end, e);
  }
}
