/**
 * The data `TestRsyncRoundtrip` in tools/rsync/api_test.go builds: two
 * generated buffers and the patches applied to copies of them.
 */
module Fixtures {
  import opened Go
  import opened Strconv
  import opened Strings
  import opened GenerateData
  import opened PatchData

  /** `generate_data(16, 16)`: sixteen labelled blocks of 16 bytes, no trailer. */
  lemma FirstSourceData()
    ensures LabelsFit(16, 16)
    ensures |Generated(16, 16, [])| == 256
    ensures Generated(16, 16, [])[16 * 15..16 * 16] == "15" + seq(14, _ => Underscore)
  {
    assert Itoa(15) == "15";
    GeneratedLength(16, 16, []);
    GeneratedBlock(16, 16, [], 15);
    assert Padded("15", 16) == "15" + seq(14, _ => Underscore);
  }

  /** Offsets and replacement texts of the patches applied in the first scenario. */
  const FirstOffsets: seq<nat> := [3, 16, 130, 176, 222]
  const FirstTexts: seq<seq<Byte>> := ["patch1", "patch2", "ptch3", "patch4", "XXYY"]

  // Each patch of the first scenario is its offset in decimal, a colon and its text.

  lemma FirstPatch0() ensures Formatted(FirstOffsets, FirstTexts)[0] == "3:patch1" {
    assert Itoa(3) == "3";
  }

  lemma FirstPatch1() ensures Formatted(FirstOffsets, FirstTexts)[1] == "16:patch2" {
    assert Itoa(16) == "16";
  }

  lemma FirstPatch2() ensures Formatted(FirstOffsets, FirstTexts)[2] == "130:ptch3" {
    assert Itoa(130) == "130";
  }

  lemma FirstPatch3() ensures Formatted(FirstOffsets, FirstTexts)[3] == "176:patch4" {
    assert Itoa(176) == "176";
  }

  lemma FirstPatch4() ensures Formatted(FirstOffsets, FirstTexts)[4] == "222:XXYY" {
    assert Itoa(222) == "222";
  }

  /** The first scenario's patches are the formatted offsets and texts. */
  lemma FirstPatchList()
    ensures Formatted(FirstOffsets, FirstTexts)
         == ["3:patch1", "16:patch2", "130:ptch3", "176:patch4", "222:XXYY"]
  {
    FirstPatch0();
    FirstPatch1();
    FirstPatch2();
    FirstPatch3();
    FirstPatch4();
  }

  /** The first scenario's replacement texts add up to 27 bytes. */
  lemma FirstTextsLength()
    ensures TotalLength(FirstTexts) == 27
  {
    var t := FirstTexts;
    assert TotalLength(t[..1]) == 6 by {
      assert t[..1][..0] == t[..0];
    }
    assert TotalLength(t[..2]) == 12 by {
      assert t[..2][..1] == t[..1];
    }
    assert TotalLength(t[..3]) == 17 by {
      assert t[..3][..2] == t[..2];
    }
    assert TotalLength(t[..4]) == 23 by {
      assert t[..4][..3] == t[..3];
    }
    assert t[..5] == t;
  }

  /** The five patches of the first scenario all apply to its 256 bytes: 5 patches, 27 bytes of text. */
  lemma FirstPatches()
    ensures PatchOutcome(256, ["3:patch1", "16:patch2", "130:ptch3", "176:patch4", "222:XXYY"])
         == Completed(5, 27)
  {
    FirstPatchList();
    FormattedOutcome(256, FirstOffsets, FirstTexts);
    FirstTextsLength();
  }

  /** `generate_data(13, 17, "trailer")`: seventeen blocks of 13 bytes, then the trailer. */
  lemma SecondSourceData()
    ensures LabelsFit(13, 17)
    ensures |Generated(13, 17, ["trailer"])| == 228
    ensures Generated(13, 17, ["trailer"])[221..] == "trailer"
  {
    assert Itoa(16) == "16";
    assert Join(["trailer"]) == "trailer";
    GeneratedLength(13, 17, ["trailer"]);
    GeneratedTrailer(13, 17, ["trailer"]);
  }

  /** The two patches of the second scenario apply to its 228 bytes: 2 patches, 12 bytes of text. */
  lemma SecondPatches()
    ensures PatchOutcome(228, ["0:patch1", "19:patch2"]) == Completed(2, 12)
  {
    var offsets: seq<nat> := [0, 19];
    var texts: seq<seq<Byte>> := ["patch1", "patch2"];
    var patches := Formatted(offsets, texts);
    assert patches[0] == Itoa(0) + [Colon] + "patch1" == "0:patch1";
    assert patches[1] == Itoa(19) + [Colon] + "patch2" == "19:patch2";
    assert patches == ["0:patch1", "19:patch2"];
    FormattedOutcome(228, offsets, texts);
  }
}
