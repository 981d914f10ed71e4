/**
 * `patch_data` of tools/rsync/api_test.go: apply patches written as
 * `"offset:text"` to a byte buffer in place, in argument order, and report
 * how many patches there were and how much replacement text they carried.
 */
module PatchData {
  import opened Wrappers
  import opened Go
  import opened Strconv
  import opened Strings

  const Colon: Byte := ':'

  /** One parsed patch: copy `text` into the buffer at `offset`. */
  datatype Write = Write(offset: nat, text: seq<Byte>)

  /** Why a patch makes `patch_data` panic. */
  datatype PatchFailure =
    | OffsetNotInteger(offsetText: seq<Byte>)  // `strconv.Atoi` returned an error
    | OffsetOutOfRange(offset: int)            // `data[offset:]` is outside the slice

  /** What a call returns, or the patch at which it panics. */
  datatype Outcome =
    | Completed(numOfPatches: nat, totalPatchSize: nat)
    | Panicked(patchIndex: nat, failure: PatchFailure)

  /** The replacement text: everything after the first `:`, or nothing without one. */
  function Replacement(patch: seq<Byte>): seq<Byte> {
    Cut(patch, Colon).1
  }

  /** Parse one patch against a buffer of `len` bytes. */
  function ParsePatch(patch: seq<Byte>, len: nat): (r: Result<Write, PatchFailure>)
    ensures r.Ok? ==> r.value.offset <= len && r.value.text == Replacement(patch)
  {
    var offsetText := Cut(patch, Colon).0;
    match Atoi(offsetText)
    case None => Err(OffsetNotInteger(offsetText))
    case Some(offset) =>
      if 0 <= offset <= len then Ok(Write(offset, Replacement(patch)))
      else Err(OffsetOutOfRange(offset))
  }

  /** A patch written as the decimal offset, a colon and the text parses back to that offset and text. */
  lemma ParseFormatted(offset: nat, text: seq<Byte>, len: nat)
    requires offset <= len && offset <= MaxInt64
    ensures ParsePatch(Itoa(offset) + [Colon] + text, len) == Ok(Write(offset, text))
  {
    var digits := Itoa(offset);
    assert Colon !in digits;
    CutAt(digits + [Colon] + text, Colon, digits, text);
    AtoiItoa(offset);
  }

  /** Without a colon the whole patch is the offset and nothing is written. */
  lemma ParseWithoutColon(patch: seq<Byte>, len: nat)
    requires Colon !in patch && ParsePatch(patch, len).Ok?
    ensures ParsePatch(patch, len).value.text == []
    ensures Atoi(patch) == Some(ParsePatch(patch, len).value.offset as int)
  {
  }

  /** Every write starts inside (or at the end of) a buffer of `len` bytes. */
  predicate InBounds(writes: seq<Write>, len: nat) {
    forall j :: 0 <= j < |writes| ==> writes[j].offset <= len
  }

  /** `data` after `copy(data[w.offset:], w.text)` for each write, in order. */
  function ApplyWrites(data: seq<Byte>, writes: seq<Write>): (r: seq<Byte>)
    requires InBounds(writes, |data|)
    ensures |r| == |data|
    decreases |writes|
  {
    if |writes| == 0 then data
    else
      var n := |writes| - 1;
      Overwrite(ApplyWrites(data, writes[..n]), writes[n].offset, writes[n].text)
  }

  /** Write `w` sets byte `p` of a buffer of `len` bytes: its text reaches `p` before the end. */
  predicate Covers(w: Write, len: nat, p: nat) {
    w.offset <= p < w.offset + |w.text| && p < len
  }

  /** The last write that sets byte `p`, if any. */
  function LastCover(writes: seq<Write>, len: nat, p: nat): (r: Option<nat>)
    ensures r.Some? ==> r.value < |writes| && Covers(writes[r.value], len, p)
    ensures r.Some? ==> forall j :: r.value < j < |writes| ==> !Covers(writes[j], len, p)
    ensures r.None? ==> forall j :: 0 <= j < |writes| ==> !Covers(writes[j], len, p)
    decreases |writes|
  {
    if |writes| == 0 then None
    else
      var n := |writes| - 1;
      if Covers(writes[n], len, p) then Some(n)
      else
        var earlier := LastCover(writes[..n], len, p);
        assert forall j :: 0 <= j < n ==> writes[..n][j] == writes[j];
        earlier
  }

  /**
   * Byte `p` after the writes: where writes overlap the last one wins,
   * and a byte no write reaches keeps its old value.
   */
  lemma {:induction false} ApplyWritesAt(data: seq<Byte>, writes: seq<Write>, p: nat)
    requires InBounds(writes, |data|) && p < |data|
    ensures ApplyWrites(data, writes)[p]
         == match LastCover(writes, |data|, p)
            case Some(j) => writes[j].text[p - writes[j].offset]
            case None => data[p]
    decreases |writes|
  {
    if |writes| > 0 {
      var n := |writes| - 1;
      var w := writes[n];
      var prev := ApplyWrites(data, writes[..n]);
      OverwriteAt(prev, w.offset, w.text, p);
      if !Covers(w, |data|, p) {
        ApplyWritesAt(data, writes[..n], p);
      }
    }
  }

  /** The bytes the writes actually transfer, each cut short at the end of the buffer. */
  function WrittenTotal(writes: seq<Write>, len: nat): nat
    requires InBounds(writes, len)
  {
    if |writes| == 0 then 0
    else
      var n := |writes| - 1;
      WrittenTotal(writes[..n], len) + CopyCount(len, writes[n].offset, |writes[n].text|)
  }

  /** The replacement texts of the writes, in order, whether or not they fit. */
  function Texts(writes: seq<Write>): (texts: seq<seq<Byte>>)
    ensures |texts| == |writes|
    ensures forall j :: 0 <= j < |writes| ==> texts[j] == writes[j].text
  {
    seq(|writes|, j requires 0 <= j < |writes| => writes[j].text)
  }

  /** Every write's text fits before the end of the buffer. */
  predicate AllFit(writes: seq<Write>, len: nat) {
    forall j :: 0 <= j < |writes| ==> writes[j].offset + |writes[j].text| <= len
  }

  /**
   * The counted text never falls short of what is written, and equals
   * it exactly when no write is truncated.
   */
  lemma {:induction false} WrittenWithinCounted(writes: seq<Write>, len: nat)
    requires InBounds(writes, len)
    ensures WrittenTotal(writes, len) <= TotalLength(Texts(writes))
    ensures WrittenTotal(writes, len) == TotalLength(Texts(writes)) <==> AllFit(writes, len)
    decreases |writes|
  {
    if |writes| > 0 {
      var n := |writes| - 1;
      assert writes[..n] + [writes[n]] == writes;
      WrittenWithinCounted(writes[..n], len);
      assert Texts(writes)[..n] == Texts(writes[..n]);
      assert forall j :: 0 <= j < n ==> writes[..n][j] == writes[j];
    }
  }

  /** The number of leading patches that parse; any patch after them is the one that panics. */
  function FirstFailure(patches: seq<seq<Byte>>, len: nat): (k: nat)
    ensures k <= |patches|
    ensures forall j :: 0 <= j < k ==> ParsePatch(patches[j], len).Ok?
    ensures k < |patches| ==> ParsePatch(patches[k], len).Err?
    decreases |patches|
  {
    if |patches| == 0 || ParsePatch(patches[0], len).Err? then 0
    else
      var m := FirstFailure(patches[1..], len);
      FirstFailureShift(patches, len, m);
      m + 1
  }

  /** When the first patch parses, the leading run of the others extends by one. */
  lemma FirstFailureShift(patches: seq<seq<Byte>>, len: nat, m: nat)
    requires 0 < |patches| && ParsePatch(patches[0], len).Ok? && m < |patches|
    requires forall j :: 0 <= j < m ==> ParsePatch(patches[1..][j], len).Ok?
    requires m < |patches| - 1 ==> ParsePatch(patches[1..][m], len).Err?
    ensures forall j :: 0 <= j < m + 1 ==> ParsePatch(patches[j], len).Ok?
    ensures m + 1 < |patches| ==> ParsePatch(patches[m + 1], len).Err?
  {
    forall j | 1 <= j < m + 1
      ensures ParsePatch(patches[j], len).Ok?
    {
      assert patches[1..][j - 1] == patches[j];
    }
    if m + 1 < |patches| {
      assert patches[1..][m] == patches[m + 1];
    }
  }

  /** Every patch parses. */
  predicate AllParse(patches: seq<seq<Byte>>, len: nat) {
    forall j :: 0 <= j < |patches| ==> ParsePatch(patches[j], len).Ok?
  }

  /** The writes of patches that all parse, in the same order. */
  function Writes(patches: seq<seq<Byte>>, len: nat): (writes: seq<Write>)
    requires AllParse(patches, len)
    ensures |writes| == |patches| && InBounds(writes, len)
    ensures forall j :: 0 <= j < |patches| ==> writes[j] == ParsePatch(patches[j], len).value
  {
    seq(|patches|, j requires 0 <= j < |patches| => ParsePatch(patches[j], len).value)
  }

  /** `total_patch_size`: the summed lengths of the text after each first `:`. */
  function TotalPatchSize(patches: seq<seq<Byte>>): (t: nat)
    ensures t <= TotalLength(patches)
    ensures (forall j :: 0 <= j < |patches| ==> Colon !in patches[j]) ==> t == 0
  {
    if |patches| == 0 then 0
    else
      var n := |patches| - 1;
      assert forall j :: 0 <= j < n ==> patches[..n][j] == patches[j];
      TotalPatchSize(patches[..n]) + |Replacement(patches[n])|
  }

  /** The counted size is the text of the parsed writes, truncated or not. */
  lemma {:induction false} TotalPatchSizeOfWrites(patches: seq<seq<Byte>>, len: nat)
    requires AllParse(patches, len)
    ensures TotalPatchSize(patches) == TotalLength(Texts(Writes(patches, len)))
    decreases |patches|
  {
    if |patches| > 0 {
      var n := |patches| - 1;
      assert Writes(patches, len)[..n] == Writes(patches[..n], len);
      assert Texts(Writes(patches, len))[..n] == Texts(Writes(patches[..n], len));
      TotalPatchSizeOfWrites(patches[..n], len);
    }
  }

  /** What `patch_data(data, patches...)` returns for a buffer of `len` bytes, or where it panics. */
  function PatchOutcome(len: nat, patches: seq<seq<Byte>>): (r: Outcome)
    ensures r.Completed? <==> AllParse(patches, len)
    ensures r.Completed? ==> r.numOfPatches == |patches| && r.totalPatchSize == TotalPatchSize(patches)
    ensures r.Panicked? ==> r.patchIndex < |patches| && AllParse(patches[..r.patchIndex], len)
    ensures r.Panicked? ==> ParsePatch(patches[r.patchIndex], len) == Err(r.failure)
  {
    var k := FirstFailure(patches, len);
    if k == |patches| then Completed(|patches|, TotalPatchSize(patches))
    else Panicked(k, ParsePatch(patches[k], len).error)
  }

  /** The buffer after the call: the writes of every patch before the first that fails. */
  function Patched(data: seq<Byte>, patches: seq<seq<Byte>>): (r: seq<Byte>)
    ensures |r| == |data|
  {
    var k := FirstFailure(patches, |data|);
    ApplyWrites(data, Writes(patches[..k], |data|))
  }

  /** One more write is one more copy on top of the earlier ones. */
  lemma ApplyWritesSnoc(data: seq<Byte>, writes: seq<Write>, w: Write)
    requires InBounds(writes, |data|) && w.offset <= |data|
    ensures InBounds(writes + [w], |data|)
    ensures ApplyWrites(data, writes + [w]) == Overwrite(ApplyWrites(data, writes), w.offset, w.text)
  {
    assert (writes + [w])[..|writes|] == writes;
  }

  /** A patch that parses after a parsed prefix extends the prefix and its writes by one. */
  lemma WritesSnoc(patches: seq<seq<Byte>>, len: nat, i: nat)
    requires i < |patches| && AllParse(patches[..i], len) && ParsePatch(patches[i], len).Ok?
    ensures AllParse(patches[..i + 1], len)
    ensures Writes(patches[..i + 1], len) == Writes(patches[..i], len) + [ParsePatch(patches[i], len).value]
  {
    var prefix := patches[..i + 1];
    forall j | 0 <= j < i + 1
      ensures ParsePatch(prefix[j], len).Ok?
    {
      if j < i {
        assert prefix[j] == patches[..i][j];
      }
    }
  }

  /** One loop step: a patch that parses extends the parsed prefix, its write follows the earlier ones. */
  lemma PatchStep(data: seq<Byte>, patches: seq<seq<Byte>>, i: nat)
    requires i < |patches| && AllParse(patches[..i], |data|) && ParsePatch(patches[i], |data|).Ok?
    ensures AllParse(patches[..i + 1], |data|)
    ensures ApplyWrites(data, Writes(patches[..i + 1], |data|))
         == Overwrite(ApplyWrites(data, Writes(patches[..i], |data|)),
                      ParsePatch(patches[i], |data|).value.offset, Replacement(patches[i]))
    ensures TotalPatchSize(patches[..i + 1]) == TotalPatchSize(patches[..i]) + |Replacement(patches[i])|
  {
    WritesSnoc(patches, |data|, i);
    ApplyWritesSnoc(data, Writes(patches[..i], |data|), ParsePatch(patches[i], |data|).value);
    TotalPatchSizeSnoc(patches, i);
  }

  /** Counting one more patch adds the length of its text after the first `:`. */
  lemma TotalPatchSizeSnoc(patches: seq<seq<Byte>>, i: nat)
    requires i < |patches|
    ensures TotalPatchSize(patches[..i + 1]) == TotalPatchSize(patches[..i]) + |Replacement(patches[i])|
  {
    assert patches[..i + 1][..i] == patches[..i];
  }

  /** A failing patch after a parsed prefix is the first failure. */
  lemma FirstFailureAt(patches: seq<seq<Byte>>, len: nat, i: nat)
    requires i < |patches| && AllParse(patches[..i], len) && ParsePatch(patches[i], len).Err?
    ensures FirstFailure(patches, len) == i
  {
    assert forall j :: 0 <= j < i ==> patches[..i][j] == patches[j];
  }

  /** The first patch that fails to parse is where the call panics, after the writes before it. */
  lemma PanicAt(data: seq<Byte>, patches: seq<seq<Byte>>, i: nat)
    requires i < |patches| && AllParse(patches[..i], |data|) && ParsePatch(patches[i], |data|).Err?
    ensures PatchOutcome(|data|, patches) == Panicked(i, ParsePatch(patches[i], |data|).error)
    ensures Patched(data, patches) == ApplyWrites(data, Writes(patches[..i], |data|))
  {
    FirstFailureAt(patches, |data|, i);
  }

  /** When every patch parses, the call completes after all their writes. */
  lemma CompleteAll(data: seq<Byte>, patches: seq<seq<Byte>>)
    requires AllParse(patches, |data|)
    ensures PatchOutcome(|data|, patches) == Completed(|patches|, TotalPatchSize(patches))
    ensures Patched(data, patches) == ApplyWrites(data, Writes(patches, |data|))
  {
    assert patches[..|patches|] == patches;
  }

  /** Patches written the way the fixtures write them: decimal offset, `:`, replacement text. */
  function Formatted(offsets: seq<nat>, texts: seq<seq<Byte>>): (patches: seq<seq<Byte>>)
    requires |offsets| == |texts|
    ensures |patches| == |offsets|
  {
    seq(|offsets|, j requires 0 <= j < |offsets| => Itoa(offsets[j]) + [Colon] + texts[j])
  }

  /** The counted size of formatted patches is the total length of their texts. */
  lemma {:induction false} FormattedSize(offsets: seq<nat>, texts: seq<seq<Byte>>)
    requires |offsets| == |texts|
    requires forall j :: 0 <= j < |offsets| ==> offsets[j] <= MaxInt64
    ensures TotalPatchSize(Formatted(offsets, texts)) == TotalLength(texts)
    decreases |offsets|
  {
    var n := |offsets|;
    if n > 0 {
      var patches := Formatted(offsets, texts);
      assert patches[..n - 1] == Formatted(offsets[..n - 1], texts[..n - 1]);
      FormattedSize(offsets[..n - 1], texts[..n - 1]);
      ParseFormatted(offsets[n - 1], texts[n - 1], offsets[n - 1]);
    }
  }

  /**
   * Well-formed patches whose offsets lie inside the buffer all apply:
   * the call returns their number and the total length of their texts.
   */
  lemma FormattedOutcome(len: nat, offsets: seq<nat>, texts: seq<seq<Byte>>)
    requires |offsets| == |texts|
    requires forall j :: 0 <= j < |offsets| ==> offsets[j] <= len && offsets[j] <= MaxInt64
    ensures PatchOutcome(len, Formatted(offsets, texts)) == Completed(|offsets|, TotalLength(texts))
  {
    var patches := Formatted(offsets, texts);
    forall j | 0 <= j < |patches|
      ensures ParsePatch(patches[j], len).Ok?
    {
      ParseFormatted(offsets[j], texts[j], len);
    }
    FormattedSize(offsets, texts);
  }

  /**
   * `patch_data`: for each patch, split at the first `:`, count the
   * text, parse the offset and copy the text in; a bad offset panics.
   */
  method PatchData(data: array<Byte>, patches: seq<seq<Byte>>) returns (outcome: Outcome)
    modifies data
    ensures outcome == PatchOutcome(data.Length, patches)
    ensures data[..] == Patched(old(data[..]), patches)
  {
    var numOfPatches := |patches|;
    var totalPatchSize := 0;
    var i := 0;
    assert patches[..0] == [];
    while i < |patches|
      invariant i <= |patches|
      invariant AllParse(patches[..i], data.Length)
      invariant totalPatchSize == TotalPatchSize(patches[..i])
      invariant data[..] == ApplyWrites(old(data[..]), Writes(patches[..i], data.Length))
    {
      var patch := patches[i];
      var cut := Cut(patch, Colon);
      var o, r := cut.0, cut.1;
      totalPatchSize := totalPatchSize + |r|;
      var parsed := Atoi(o);
      if parsed.None? {
        outcome := Panicked(i, OffsetNotInteger(o));
        assert ParsePatch(patch, data.Length) == Err(outcome.failure);
        PanicAt(old(data[..]), patches, i);
        return;
      }
      var offset := parsed.value;
      if offset < 0 || offset > data.Length {
        outcome := Panicked(i, OffsetOutOfRange(offset));
        assert ParsePatch(patch, data.Length) == Err(outcome.failure);
        PanicAt(old(data[..]), patches, i);
        return;
      }
      assert ParsePatch(patch, data.Length) == Ok(Write(offset, r));
      PatchStep(old(data[..]), patches, i);
      var _ := Copy(data, offset, r);
      i := i + 1;
    }
    assert patches[..i] == patches;
    CompleteAll(old(data[..]), patches);
    outcome := Completed(numOfPatches, totalPatchSize);
  }
}
