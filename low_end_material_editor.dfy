// The text and arithmetic of the low-end material tools
// (LowEndMaterialAdaptorEditor): property-mapping lines "key -> value",
// '/'-separated alternative names, the path of a generated low-end
// material, the side of the packed main-texture atlas, and the test for a
// model file.
module LowEndMaterialAdaptorEditor {
  import opened Wrappers
  import Text

  // ---------------------------------------------------------------------
  // Trimming

  /** The leading white space ends at the first character that is not white space. */
  lemma LeadingBlanksUnique(s: string, n: nat)
    requires n <= |s| && Text.IsBlank(s[..n]) && (n == |s| || !Text.IsWhiteSpace(s[n]))
    ensures Text.LeadingBlanks(s) == n
  {
    var m := Text.LeadingBlanks(s);
    assert forall k :: 0 <= k < n ==> Text.IsWhiteSpace(s[..n][k]) && s[..n][k] == s[k];
    assert forall k :: 0 <= k < m ==> Text.IsWhiteSpace(s[..m][k]) && s[..m][k] == s[k];
  }

  /** The trailing white space starts after the last character that is not white space. */
  lemma TrailingBlanksUnique(s: string, n: nat)
    requires n <= |s| && Text.IsBlank(s[|s| - n..]) && (n == |s| || !Text.IsWhiteSpace(s[|s| - n - 1]))
    ensures Text.TrailingBlanks(s) == n
  {
    var m := Text.TrailingBlanks(s);
    assert forall k :: |s| - n <= k < |s| ==> Text.IsWhiteSpace(s[|s| - n..][k - (|s| - n)]) && s[|s| - n..][k - (|s| - n)] == s[k];
    assert forall k :: |s| - m <= k < |s| ==> Text.IsWhiteSpace(s[|s| - m..][k - (|s| - m)]) && s[|s| - m..][k - (|s| - m)] == s[k];
  }

  /** Trim removes exactly the white space around a core that starts and ends with other characters. */
  lemma TrimUnique(b1: string, r: string, b2: string)
    requires Text.IsBlank(b1) && Text.IsBlank(b2) && r != []
    requires !Text.IsWhiteSpace(r[0]) && !Text.IsWhiteSpace(r[|r| - 1])
    ensures Text.Trim(b1 + r + b2) == r
  {
    var s := b1 + r + b2;
    assert s[..|b1|] == b1 && s[|b1|] == r[0];
    LeadingBlanksUnique(s, |b1|);
    var a := s[|b1|..];
    assert a == r + b2;
    assert a[|a| - |b2|..] == b2 && a[|a| - |b2| - 1] == r[|r| - 1];
    TrailingBlanksUnique(a, |b2|);
    assert a[..|a| - |b2|] == r;
  }

  /** Trim of a blank string is empty. */
  lemma TrimBlank(s: string)
    requires Text.IsBlank(s)
    ensures Text.Trim(s) == []
  {
    LeadingBlanksUnique(s, |s|);
  }

  /** Padding with white space does not change what Trim keeps. */
  lemma TrimPadded(b1: string, s: string, b2: string)
    requires Text.IsBlank(b1) && Text.IsBlank(b2)
    ensures Text.Trim(b1 + s + b2) == Text.Trim(s)
  {
    if Text.Trim(s) == [] {
      TrimEmptyIsBlank(s);
      BlankConcat(b1, s, b2);
      TrimBlank(b1 + s + b2);
    } else {
      TrimPaddedCore(b1, s, b2);
    }
  }

  lemma TrimPaddedCore(b1: string, s: string, b2: string)
    requires Text.IsBlank(b1) && Text.IsBlank(b2) && Text.Trim(s) != []
    ensures Text.Trim(b1 + s + b2) == Text.Trim(s)
  {
    var r := Text.Trim(s);
    var i := Text.LeadingBlanks(s);
    var c1, c2 := s[..i], s[i + |r|..];
    assert s == c1 + r + c2;
    Regroup(b1, c1, r, c2, b2);
    BlankPair(b1, c1);
    BlankPair(c2, b2);
    TrimUnique(b1 + c1, r, c2 + b2);
  }

  /** Only a blank string trims to nothing. */
  lemma TrimEmptyIsBlank(s: string)
    requires Text.Trim(s) == []
    ensures Text.IsBlank(s)
  {
    var i := Text.LeadingBlanks(s);
    assert s[..i] == s;
  }

  lemma Regroup(b1: string, c1: string, r: string, c2: string, b2: string)
    ensures b1 + (c1 + r + c2) + b2 == (b1 + c1) + r + (c2 + b2)
  {
  }

  lemma BlankPair(a: string, b: string)
    requires Text.IsBlank(a) && Text.IsBlank(b)
    ensures Text.IsBlank(a + b)
  {
  }

  lemma BlankConcat(a: string, b: string, c: string)
    requires Text.IsBlank(a) && Text.IsBlank(b) && Text.IsBlank(c)
    ensures Text.IsBlank(a + b + c)
  {
  }

  // ---------------------------------------------------------------------
  // Property mapping lines

  /**
   * GetMappingPair: a line that is null or blank, or has no "->", gives
   * (null, null); otherwise the trimmed text before the first "->" and the
   * trimmed text after it.
   */
  function GetMappingPair(line: Option<string>): (pair: (Option<string>, Option<string>))
    ensures line.None? || Text.IsBlank(line.value) || Text.IndexOf(line.value, "->").None? ==> pair == (None, None)
    ensures line.Some? && !Text.IsBlank(line.value) && Text.IndexOf(line.value, "->").Some? ==>
      var i := Text.IndexOf(line.value, "->").value;
      Text.OccursAt("->", line.value, i) &&
      pair == (Some(Text.Trim(line.value[..i])), Some(Text.Trim(line.value[i + 2..])))
  {
    if line.None? || Text.IsBlank(line.value) then (None, None)
    else
      match Text.IndexOf(line.value, "->")
      case None => (None, None)
      case Some(i) => (Some(Text.Trim(line.value[..i])), Some(Text.Trim(line.value[i + 2..])))
  }

  /** A line written as "key -> value", with no "->" in the key, parses back to the trimmed key and value. */
  lemma MappingLineRoundTrip(key: string, value: string)
    requires !Text.Contains(key, "->")
    ensures GetMappingPair(Some(key + " -> " + value)) == (Some(Text.Trim(key)), Some(Text.Trim(value)))
  {
    ArrowAfterKey(key, value);
    LineSides(key, value);
    TrimRightSpace(key);
    TrimLeftSpace(value);
  }

  /** The characters of key + " -> " + value, position by position. */
  lemma LineChars(key: string, value: string)
    ensures var line := key + " -> " + value;
      var n := |key|;
      && |line| == n + 4 + |value| && line[..n] == key && line[n + 4..] == value
      && line[n] == ' ' && line[n + 1] == '-' && line[n + 2] == '>' && line[n + 3] == ' '
  {
  }

  /** The first "->" of key + " -> " + value is the written one when the key holds none. */
  lemma ArrowAfterKey(key: string, value: string)
    requires !Text.Contains(key, "->")
    ensures var line := key + " -> " + value;
      !Text.IsBlank(line) && Text.IndexOf(line, "->") == Some(|key| + 1)
  {
    var line := key + " -> " + value;
    var n := |key|;
    LineChars(key, value);
    assert Text.OccursAt("->", line, n + 1) by {
      assert line[n + 1..n + 3] == "->";
    }
    assert !Text.IsBlank(line) by {
      assert line[n + 1] == '-';
    }
    var i := Text.IndexOf(line, "->");
    assert i.Some? && i.value <= n + 1;
    if i.value + 2 <= n {
      assert line[i.value..i.value + 2] == key[i.value..i.value + 2];
      assert Text.OccursAt("->", key, i.value);
    }
    assert i.value == n + 1 by {
      assert line[n] == ' ';
    }
  }

  /** The text on either side of the arrow of key + " -> " + value. */
  lemma LineSides(key: string, value: string)
    ensures var line := key + " -> " + value;
      var n := |key|;
      line[..n + 1] == key + " " && line[n + 3..] == " " + value
  {
    LineChars(key, value);
  }

  lemma TrimRightSpace(s: string)
    ensures Text.Trim(s + " ") == Text.Trim(s)
  {
    TrimPadded([], s, " ");
    EmptyLeft(s, " ");
  }

  lemma EmptyLeft(s: string, t: string)
    ensures [] + s + t == s + t
  {
  }

  lemma EmptyRight(s: string, t: string)
    ensures s + t + [] == s + t
  {
  }

  lemma TrimLeftSpace(s: string)
    ensures Text.Trim(" " + s) == Text.Trim(s)
  {
    TrimPadded(" ", s, []);
    EmptyRight(" ", s);
  }

  // ---------------------------------------------------------------------
  // Alternative names

  /** Some segment, trimmed, equals name. */
  ghost predicate SegmentNamed(segments: seq<string>, name: string)
  {
    exists i :: 0 <= i < |segments| && Text.Trim(segments[i]) == name
  }

  /** The scan over the segments finds a segment named name exactly when one exists. */
  function AnySegmentNamed(segments: seq<string>, name: string): (r: bool)
    ensures r <==> SegmentNamed(segments, name)
  {
    if segments == [] then false
    else Text.Trim(segments[0]) == name || AnySegmentNamed(segments[1..], name)
  }

  /**
   * IsMapping: a key that is null or blank maps nothing; otherwise the key
   * maps name when one of its '/'-separated segments, trimmed, is exactly
   * name.
   */
  function IsMapping(key: Option<string>, name: string): (r: bool)
    ensures r <==> key.Some? && !Text.IsBlank(key.value) && SegmentNamed(Text.Split(key.value, '/'), name)
  {
    if key.None? || Text.IsBlank(key.value) then false
    else
      var segments := Text.Split(key.value, '/');
      AnySegmentNamed(segments, name)
  }

  /** A name containing '/' is never mapped: no segment holds a '/'. */
  lemma NoMappingWithSlash(key: Option<string>, name: string)
    requires '/' in name
    ensures !IsMapping(key, name)
  {
    if key.Some? {
      var segments := Text.Split(key.value, '/');
      forall i | 0 <= i < |segments|
        ensures Text.Trim(segments[i]) != name
      {
        var t := Text.Trim(segments[i]);
        var k := Text.LeadingBlanks(segments[i]);
        assert forall c :: c in t ==> c in segments[i] by {
          assert t == segments[i][k..k + |t|];
        }
      }
    }
  }

  /** A key that is the name itself, with no white space around it and no '/', maps that name. */
  lemma MappingOfItself(name: string)
    requires name != [] && '/' !in name && Text.Trim(name) == name
    ensures IsMapping(Some(name), name)
  {
    assert Text.Split(name, '/') == [name];
    assert !Text.IsWhiteSpace(name[0]);
  }

  // ---------------------------------------------------------------------
  // Asset paths

  /** Path.GetFileName on an asset path: the text after the last '/'. */
  function FileName(path: string): (name: string)
    ensures '/' !in name && |name| <= |path| && path[|path| - |name|..] == name
    ensures |name| < |path| ==> path[|path| - |name| - 1] == '/'
  {
    if path == [] || path[|path| - 1] == '/' then []
    else
      var init := FileName(path[..|path| - 1]);
      assert path[|path| - |init| - 1..] == path[..|path| - 1][|path| - 1 - |init|..] + [path[|path| - 1]];
      init + [path[|path| - 1]]
  }

  /** The position of the last '.', if any. */
  function LastDot(s: string): (r: Option<nat>)
    ensures r.Some? ==> r.value < |s| && s[r.value] == '.' && '.' !in s[r.value + 1..]
    ensures r.None? ==> '.' !in s
  {
    if s == [] then None
    else if s[|s| - 1] == '.' then Some(|s| - 1)
    else
      var r := LastDot(s[..|s| - 1]);
      assert s == s[..|s| - 1] + [s[|s| - 1]];
      r
  }

  /** Path.GetFileNameWithoutExtension on a file name: everything before the last '.'. */
  function WithoutExtension(name: string): (stem: string)
    ensures stem <= name
    ensures LastDot(name).None? ==> stem == name
    ensures LastDot(name).Some? ==> |stem| == LastDot(name).value
  {
    match LastDot(name)
    case None => name
    case Some(d) => name[..d]
  }

  /**
   * The path of the low-end copy of a material: the same folder, and the
   * file name without its extension followed by "_low.mat".
   */
  function LowEndMaterialPath(assetPath: string): string
  {
    var name := FileName(assetPath);
    assetPath[..|assetPath| - |name|] + (WithoutExtension(name) + "_low.mat")
  }

  /** The low-end path keeps the folder, and its file name is the stem with "_low.mat". */
  lemma LowEndMaterialPathParts(assetPath: string)
    ensures var name := FileName(assetPath);
      var folder := assetPath[..|assetPath| - |name|];
      && LowEndMaterialPath(assetPath)[..|folder|] == folder
      && FileName(LowEndMaterialPath(assetPath)) == WithoutExtension(name) + "_low.mat"
  {
    var name := FileName(assetPath);
    var folder := assetPath[..|assetPath| - |name|];
    LowNameNoSlash(name);
    FolderEndsWithSlash(assetPath);
    JoinParts(folder, WithoutExtension(name) + "_low.mat");
  }

  lemma FolderEndsWithSlash(path: string)
    ensures var folder := path[..|path| - |FileName(path)|];
      folder == [] || folder[|folder| - 1] == '/'
  {
  }

  lemma LowNameNoSlash(name: string)
    requires '/' !in name
    ensures '/' !in WithoutExtension(name) + "_low.mat"
  {
    NoSlashInStem(name);
    assert '/' !in "_low.mat";
  }

  lemma JoinParts(folder: string, file: string)
    requires '/' !in file && (folder == [] || folder[|folder| - 1] == '/')
    ensures (folder + file)[..|folder|] == folder && FileName(folder + file) == file
  {
    FileNameOfJoin(folder, file);
  }

  lemma NoSlashInStem(name: string)
    requires '/' !in name
    ensures '/' !in WithoutExtension(name)
  {
    var stem := WithoutExtension(name);
    assert stem == name[..|stem|];
    assert forall k :: 0 <= k < |stem| ==> stem[k] == name[k];
  }

  /** The file name of folder + file is file when file has no '/' and the folder is empty or ends with '/'. */
  lemma {:induction false} FileNameOfJoin(folder: string, file: string)
    requires '/' !in file && (folder == [] || folder[|folder| - 1] == '/')
    ensures FileName(folder + file) == file
    decreases |file|
  {
    if file == [] {
      EmptyRight(folder, []);
    } else {
      var init := file[..|file| - 1];
      JoinLast(folder, file);
      FileNameOfJoin(folder, init);
      assert file == init + [file[|file| - 1]];
    }
  }

  /** Dropping the last character of folder + file drops it from file. */
  lemma JoinLast(folder: string, file: string)
    requires file != []
    ensures var path := folder + file;
      path[|path| - 1] == file[|file| - 1] && path[..|path| - 1] == folder + file[..|file| - 1]
  {
  }

  // ---------------------------------------------------------------------
  // The atlas of packed main textures

  function Pow2(k: nat): (r: nat)
    ensures r >= 1
  {
    if k == 0 then 1 else 2 * Pow2(k - 1)
  }

  /**
   * The side of the packed atlas: 4, doubled while the pixels of all
   * textures exceed its area and it is below 4096. It ends as a power of
   * two in [4, 4096] whose area holds all pixels unless it reached 4096,
   * and it is the smallest such power.
   */
  method PackSize(totalPixels: int) returns (size: int)
    ensures exists k :: 2 <= k <= 12 && size == Pow2(k)
    ensures 4 <= size <= 4096
    ensures size == 4096 || totalPixels <= size * size
    ensures size == 4 || totalPixels > (size / 2) * (size / 2)
  {
    size := 4;
    ghost var k := 2;
    assert Pow2(2) == 4;
    while totalPixels > size * size && size < 4096
      invariant 2 <= k <= 12 && size == Pow2(k)
      invariant size == 4 || totalPixels > (size / 2) * (size / 2)
      decreases 4096 - size
    {
      PowersBelow4096(k);
      size := size * 2;
      k := k + 1;
    }
    PowersBelow4096(k);
  }

  /** The powers of two from 2^2 to 2^12 lie in [4, 4096], and only 2^12 is 4096. */
  lemma PowersBelow4096(k: nat)
    requires 2 <= k <= 12
    ensures 4 <= Pow2(k) <= 4096 && (Pow2(k) == 4096 <==> k == 12)
  {
    assert Pow2(2) == 4 && Pow2(3) == 8 && Pow2(4) == 16 && Pow2(5) == 32 && Pow2(6) == 64;
    assert Pow2(7) == 128 && Pow2(8) == 256 && Pow2(9) == 512 && Pow2(10) == 1024;
    assert Pow2(11) == 2048 && Pow2(12) == 4096;
  }

  // ---------------------------------------------------------------------
  // Model files

  /** IsModelPrefab: the lower-cased path ends with "fbx" or "obj". */
  function IsModelPrefab(prefabPath: string): (r: bool)
    ensures r <==> Text.IsSuffix("fbx", Text.ToLower(prefabPath)) || Text.IsSuffix("obj", Text.ToLower(prefabPath))
  {
    var lower := Text.ToLower(prefabPath);
    Text.IsSuffix("fbx", lower) || Text.IsSuffix("obj", lower)
  }

  /** Any path ending in an fbx or obj extension, in any letter case, is a model. */
  lemma ModelExtensions(path: string, extension: string)
    requires Text.ToLower(extension) == "fbx" || Text.ToLower(extension) == "obj"
    ensures IsModelPrefab(path + extension)
  {
    Text.ToLowerAppend(path, extension);
    var lower := Text.ToLower(path + extension);
    assert lower[|lower| - 3..] == Text.ToLower(extension);
  }

  /** A model path is at least three characters long. */
  lemma ModelPathLength(path: string)
    requires IsModelPrefab(path)
    ensures |path| >= 3
  {
  }
}
