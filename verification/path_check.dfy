/** The path validator of the disk layer (`check_path_length`): whole-path byte
    limits on macOS and Windows, the three reserved paths, and the per-segment
    character limit. A pure function of the path text and the platform. */
module PathCheck {
  import opened FsTypes

  /** Whole-path byte limit on macOS. */
  const MacOSPathMax := 1016
  /** Whole-path byte limit on Windows. */
  const WindowsPathMax := 1024
  /** Per-segment character limit (NAME_MAX). */
  const NameMax := 255

  /** Number of bytes of the UTF-8 encoding of one character (section 3 of RFC 3629). */
  function Utf8Width(c: char): (w: nat)
    ensures 1 <= w <= 4
    ensures c as int < 0x80 <==> w == 1
  {
    if c as int < 0x80 then 1
    else if c as int < 0x800 then 2
    else if c as int < 0x10000 then 3
    else 4
  }

  /** `str::len`: the number of bytes of the UTF-8 encoding of `s`. */
  function ByteLen(s: string): (n: nat)
    ensures |s| <= n <= 4 * |s|
    ensures (forall i :: 0 <= i < |s| ==> s[i] as int < 0x80) ==> n == |s|
  {
    if s == [] then 0 else ByteLen(s[..|s| - 1]) + Utf8Width(s[|s| - 1])
  }

  /** The whole-path limit of the platform is exceeded. */
  predicate TotalTooLong(path: string, p: Platform)
  {
    || (p == MacOS && ByteLen(path) > MacOSPathMax)
    || (p == Windows && ByteLen(path) > WindowsPathMax)
  }

  /** The paths rejected outright: ".", ".." and "/". */
  predicate IsReserved(path: string)
  {
    path == "." || path == ".." || path == "/"
  }

  /** '/' always separates segments; '\' separates them only on Windows. */
  predicate IsSeparator(c: char, p: Platform)
  {
    c == '/' || (p == Windows && c == '\\')
  }

  /** Number of characters since the last separator: the loop counter after reading `s`. */
  function TrailingRun(s: string, p: Platform): nat
  {
    if s == [] || IsSeparator(s[|s| - 1], p) then 0 else TrailingRun(s[..|s| - 1], p) + 1
  }

  /** The runs of characters between separators, in order (the reference view of a path). */
  function Segments(s: string, p: Platform): (segs: seq<string>)
    ensures |segs| >= 1
  {
    if s == [] then [[]]
    else
      var init := Segments(s[..|s| - 1], p);
      var c := s[|s| - 1];
      if IsSeparator(c, p) then init + [[]]
      else init[..|init| - 1] + [init[|init| - 1] + [c]]
  }

  /** Every segment is at most NameMax characters long. */
  ghost predicate SegmentsFit(s: string, p: Platform)
  {
    AllFit(Segments(s, p))
  }

  /** The character loop of the check, from position `i` with the counter at `count`:
      true when the counter would pass NameMax. */
  function ScanSegments(s: string, p: Platform, i: nat, count: nat): (tooLong: bool)
    requires i <= |s| && count == TrailingRun(s[..i], p) && count <= NameMax
    ensures tooLong <==> exists n :: i < n <= |s| && TrailingRun(s[..n], p) > NameMax
    decreases |s| - i
  {
    if i == |s| then false
    else
      assert s[..i + 1][..i] == s[..i];
      if IsSeparator(s[i], p) then ScanSegments(s, p, i + 1, 0)
      else if count + 1 > NameMax then true
      else ScanSegments(s, p, i + 1, count + 1)
  }

  /** `check_path_length`: the platform limit first, then the reserved paths, then
      the segment limit; the first failing check decides the error. */
  function CheckPathLength(path: string, p: Platform): (r: Result<(), DiskError>)
    ensures r.Ok? <==> !TotalTooLong(path, p) && !IsReserved(path) && SegmentsFit(path, p)
    ensures r == Err(FileAccessDenied) <==> !TotalTooLong(path, p) && IsReserved(path)
    ensures r == Err(FileNameTooLong)
        <==> TotalTooLong(path, p) || (!IsReserved(path) && !SegmentsFit(path, p))
  {
    if p == MacOS && ByteLen(path) > MacOSPathMax then Err(FileNameTooLong)
    else if p == Windows && ByteLen(path) > WindowsPathMax then Err(FileNameTooLong)
    else if IsReserved(path) then Err(FileAccessDenied)
    else
      assert path[..0] == [];
      SegmentsFitIff(path, p);
      if ScanSegments(path, p, 0, 0) then Err(FileNameTooLong) else Ok(())
  }

  /* ---------------------------------------------------------------------------
     Segments and the character counter
     ------------------------------------------------------------------------- */

  /** The last segment is exactly the run the counter has seen since the last separator. */
  lemma {:induction false} LastSegmentIsTrailingRun(s: string, p: Platform)
    ensures var segs := Segments(s, p); |segs[|segs| - 1]| == TrailingRun(s, p)
  {
    if s != [] {
      LastSegmentIsTrailingRun(s[..|s| - 1], p);
    }
  }

  /** Every segment of the list is at most NameMax characters long. */
  ghost predicate AllFit(segs: seq<string>)
  {
    forall j :: 0 <= j < |segs| ==> |segs[j]| <= NameMax
  }

  /** The counter stays within NameMax at every prefix of `s`. */
  ghost predicate RunsFit(s: string, p: Platform)
  {
    forall n :: 0 <= n <= |s| ==> TrailingRun(s[..n], p) <= NameMax
  }

  lemma RunsFitSnoc(s: string, p: Platform)
    requires s != []
    ensures RunsFit(s, p) <==> RunsFit(s[..|s| - 1], p) && TrailingRun(s, p) <= NameMax
  {
    var s' := s[..|s| - 1];
    if RunsFit(s, p) {
      forall n | 0 <= n <= |s'|
        ensures TrailingRun(s'[..n], p) <= NameMax
      {
        assert s[..n] == s'[..n];
      }
      assert s[..|s|] == s;
    }
    if RunsFit(s', p) && TrailingRun(s, p) <= NameMax {
      forall n | 0 <= n <= |s|
        ensures TrailingRun(s[..n], p) <= NameMax
      {
        if n == |s| {
          assert s[..n] == s;
        } else {
          assert s[..n] == s'[..n];
        }
      }
    }
  }

  lemma AllFitSnoc(segs: seq<string>, seg: string)
    ensures AllFit(segs + [seg]) <==> AllFit(segs) && |seg| <= NameMax
  {
    var all := segs + [seg];
    assert all[|segs|] == seg;
    assert forall j :: 0 <= j < |segs| ==> all[j] == segs[j];
  }

  /** All segments fit exactly when the counter never passes NameMax. */
  lemma {:induction false} SegmentsFitIff(s: string, p: Platform)
    ensures SegmentsFit(s, p) <==> RunsFit(s, p)
  {
    if s == [] {
      assert Segments(s, p) == [[]];
      assert s[..0] == [];
    } else {
      var s' := s[..|s| - 1];
      var c := s[|s| - 1];
      SegmentsFitIff(s', p);
      LastSegmentIsTrailingRun(s', p);
      RunsFitSnoc(s, p);
      var init := Segments(s', p);
      var k := |init| - 1;
      if IsSeparator(c, p) {
        assert Segments(s, p) == init + [[]];
        AllFitSnoc(init, []);
      } else {
        var last := init[k] + [c];
        assert Segments(s, p) == init[..k] + [last];
        assert init == init[..k] + [init[k]];
        AllFitSnoc(init[..k], last);
        AllFitSnoc(init[..k], init[k]);
      }
    }
  }

  /** No segment contains a separator: segments are the runs between separators. */
  lemma {:induction false} SegmentsHaveNoSeparator(s: string, p: Platform)
    ensures forall seg, j :: seg in Segments(s, p) && 0 <= j < |seg| ==> !IsSeparator(seg[j], p)
  {
    if s != [] {
      var s' := s[..|s| - 1];
      SegmentsHaveNoSeparator(s', p);
      var init := Segments(s', p);
      var k := |init| - 1;
      assert init[k] in init;
      if !IsSeparator(s[|s| - 1], p) {
        assert forall seg :: seg in Segments(s, p) ==> seg in init[..k] || seg == init[k] + [s[|s| - 1]];
      }
    }
  }

  /** A text without separators is a single segment. */
  lemma {:induction false} NoSeparatorSingleSegment(s: string, p: Platform)
    requires forall i :: 0 <= i < |s| ==> !IsSeparator(s[i], p)
    ensures Segments(s, p) == [s]
  {
    if s != [] {
      var s' := s[..|s| - 1];
      NoSeparatorSingleSegment(s', p);
      assert s' + [s[|s| - 1]] == s;
    }
  }

  /** A separator-free text of more than NameMax characters is rejected with
      FileNameTooLong on every platform, whatever its byte length. */
  lemma LongSegmentRejected(s: string, p: Platform)
    requires |s| > NameMax
    requires forall i :: 0 <= i < |s| ==> s[i] != '/' && s[i] != '\\'
    ensures CheckPathLength(s, p) == Err(FileNameTooLong)
  {
    assert forall i :: 0 <= i < |s| ==> !IsSeparator(s[i], p);
    NoSeparatorSingleSegment(s, p);
    assert Segments(s, p)[0] == s;
    assert !SegmentsFit(s, p);
    assert !IsReserved(s) by { assert |s| > 2; }
  }

  /** A 300-character path with no separator is rejected on every platform. */
  lemma ThreeHundredCharactersRejected(p: Platform)
    ensures CheckPathLength(seq(300, _ => 'a'), p) == Err(FileNameTooLong)
  {
    LongSegmentRejected(seq(300, _ => 'a'), p);
  }

  /** A run of separator-free characters at the end of a text is counted in full. */
  lemma {:induction false} TrailingRunCountsSuffix(a: string, w: string, p: Platform)
    requires forall i :: 0 <= i < |w| ==> !IsSeparator(w[i], p)
    ensures TrailingRun(a + w, p) >= |w|
  {
    if w != [] {
      var w' := w[..|w| - 1];
      TrailingRunCountsSuffix(a, w', p);
      assert (a + w)[..|a + w| - 1] == a + w';
    }
  }

  /** A separator-free block of more than NameMax characters anywhere in the text
      makes the check fail with FileNameTooLong. */
  lemma LongBlockRejected(a: string, w: string, b: string, p: Platform)
    requires |w| > NameMax
    requires forall i :: 0 <= i < |w| ==> !IsSeparator(w[i], p)
    ensures CheckPathLength(a + w + b, p) == Err(FileNameTooLong)
  {
    var s := a + w + b;
    TrailingRunCountsSuffix(a, w, p);
    assert s[..|a + w|] == a + w;
    SegmentsFitIff(s, p);
    assert !RunsFit(s, p);
  }
}
