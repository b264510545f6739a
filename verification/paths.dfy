/** The file-name helpers: pathlib's suffix and stem, `replace_ext`,
    `match_ext`, `adjustname`, the `.wav` name of `convert2wav` and the
    subtype and default file name of `newbitdepth`. A path is its string
    form; the final component is what follows the last `/`. */
module Paths {
  import opened Wrappers

  /** `s.rfind(c)`: the index of the last `c` in `s`, or -1 when there is none. */
  function LastIndexOf(s: string, c: char): (r: int)
    ensures -1 <= r < |s|
    ensures r >= 0 ==> s[r] == c
    ensures forall j :: r < j < |s| ==> s[j] != c
    decreases |s|
  {
    if |s| == 0 then -1
    else if s[|s| - 1] == c then |s| - 1
    else LastIndexOf(s[..|s| - 1], c)
  }

  /** The last occurrence is the only one with no occurrence after it. */
  lemma LastIndexOfIs(s: string, c: char, k: int)
    requires k == -1 || (0 <= k < |s| && s[k] == c)
    requires forall j :: k < j < |s| ==> s[j] != c
    ensures LastIndexOf(s, c) == k
  {
  }

  /** The directory part of `p`, up to and including its last `/`. */
  function Parent(p: string): string {
    p[..LastIndexOf(p, '/') + 1]
  }

  /** pathlib's `name`: the final component of `p`. */
  function Name(p: string): string {
    p[LastIndexOf(p, '/') + 1..]
  }

  /** Where pathlib splits a name: at its last `.`, but only when that dot is
      neither the first nor the last character; -1 when there is no split. */
  function SplitIndex(name: string): int {
    var i := LastIndexOf(name, '.');
    if 0 < i < |name| - 1 then i else -1
  }

  /** pathlib's `suffix`: the final component from its split dot on, or the
      empty string when the component has no split dot. */
  function Suffix(p: string): string {
    var name := Name(p);
    var i := SplitIndex(name);
    if i == -1 then "" else name[i..]
  }

  /** pathlib's `stem`: the final component up to its split dot. */
  function Stem(p: string): string {
    var name := Name(p);
    var i := SplitIndex(name);
    if i == -1 then name else name[..i]
  }

  /** A suffix as pathlib reports it: a dot, then at least one character,
      none of them a dot or a separator. */
  predicate IsExtension(e: string) {
    && |e| >= 2
    && e[0] == '.'
    && forall k :: 1 <= k < |e| ==> e[k] != '.' && e[k] != '/'
  }

  /** No character of `s` is `c`. */
  predicate Avoids(s: string, c: char) {
    forall k :: 0 <= k < |s| ==> s[k] != c
  }

  /** Every path is its directory followed by its final component; the
      directory is empty or ends in a separator, and the final component
      holds none. */
  lemma ParentNameSplit(p: string)
    ensures p == Parent(p) + Name(p)
    ensures Parent(p) == "" || Parent(p)[|Parent(p)| - 1] == '/'
    ensures Avoids(Name(p), '/')
  {
  }

  /** The final component is its stem followed by its suffix, and the
      suffix is empty or a well-formed extension. */
  lemma StemSuffixSplit(p: string)
    ensures Name(p) == Stem(p) + Suffix(p)
    ensures Suffix(p) == "" || IsExtension(Suffix(p))
  {
  }

  /** The stem is empty only when the whole final component is, and holds
      no separator. */
  lemma StemShape(p: string)
    ensures Stem(p) == "" <==> Name(p) == ""
    ensures Avoids(Stem(p), '/')
  {
  }

  /** Every path is its directory, its stem and its suffix, in that order. */
  lemma PathDecomposition(p: string)
    ensures p == Parent(p) + Stem(p) + Suffix(p)
  {
  }

  /** Appending text without `c` does not move the last `c`. */
  lemma LastIndexOfAppend(s: string, t: string, c: char)
    requires Avoids(t, c)
    ensures LastIndexOf(s + t, c) == LastIndexOf(s, c)
  {
    var k := LastIndexOf(s, c);
    forall j | k < j < |s + t|
      ensures (s + t)[j] != c
    {
      if j >= |s| {
        assert (s + t)[j] == t[j - |s|];
      }
    }
    LastIndexOfIs(s + t, c, k);
  }

  /** The path with directory `dir` (empty or ending in `/`) and final
      component `name` splits back into exactly those two parts. */
  lemma ParentAndName(dir: string, name: string)
    requires dir == "" || dir[|dir| - 1] == '/'
    requires Avoids(name, '/')
    ensures Parent(dir + name) == dir && Name(dir + name) == name
  {
    LastIndexOfAppend(dir, name, '/');
    LastIndexOfIs(dir, '/', |dir| - 1);
    assert (dir + name)[..|dir|] == dir;
    assert (dir + name)[|dir|..] == name;
  }

  /** A non-empty stem followed by a well-formed extension splits between
      the two. */
  lemma SplitBeforeExtension(stem: string, ext: string)
    requires IsExtension(ext) && stem != ""
    ensures SplitIndex(stem + ext) == |stem|
  {
    var name := stem + ext;
    assert name[|stem|] == '.';
    forall j | |stem| < j < |name|
      ensures name[j] != '.'
    {
      assert name[j] == ext[j - |stem|];
    }
    LastIndexOfIs(name, '.', |stem|);
  }

  /** The path `dir + stem + ext` splits back into exactly those parts when
      `dir` is a directory prefix, `stem` a non-empty separator-free text
      and `ext` a well-formed extension. */
  lemma ComposedPathSplits(dir: string, stem: string, ext: string)
    requires dir == "" || dir[|dir| - 1] == '/'
    requires stem != "" && Avoids(stem, '/')
    requires IsExtension(ext)
    ensures Parent(dir + stem + ext) == dir
    ensures Stem(dir + stem + ext) == stem
    ensures Suffix(dir + stem + ext) == ext
  {
    var name := stem + ext;
    forall k | 0 <= k < |name|
      ensures name[k] != '/'
    {
      if k >= |stem| {
        assert name[k] == ext[k - |stem|];
      }
    }
    assert dir + stem + ext == dir + name;
    ParentAndName(dir, name);
    SplitBeforeExtension(stem, ext);
    assert name[|stem|..] == ext;
    assert name[..|stem|] == stem;
  }

  /** `replace_ext(filename, extension)`: the path with its suffix cut off
      and `extension` put in its place; directory and stem are kept. */
  function ReplaceExt(p: string, ext: string): (r: string)
    ensures r == Parent(p) + Stem(p) + ext
  {
    PathDecomposition(p);
    p[..|p| - |Suffix(p)|] + ext
  }

  /** Replacing the suffix of a path with a non-empty final component by a
      well-formed extension round-trips: the new path has exactly that
      suffix, and the same directory and stem. */
  lemma ReplaceExtRoundTrip(p: string, ext: string)
    requires IsExtension(ext)
    ensures Name(p) != "" ==> Suffix(ReplaceExt(p, ext)) == ext
    ensures Name(p) != "" ==> Stem(ReplaceExt(p, ext)) == Stem(p)
    ensures Name(p) != "" ==> Parent(ReplaceExt(p, ext)) == Parent(p)
  {
    if Name(p) != "" {
      ParentNameSplit(p);
      StemShape(p);
      ComposedPathSplits(Parent(p), Stem(p), ext);
    }
  }

  /** `match_ext(filename1, filename2)`: give both names the same extension,
      that of `filename1` if it has one, else that of `filename2`; a name
      that already carries it is returned unchanged. Fails when neither
      name has an extension. */
  function MatchExt(f1: string, f2: string): (r: Result<(string, string)>)
    ensures r.Err? <==> Suffix(f1) == "" && Suffix(f2) == ""
    ensures r.Err? ==> r.error == MissingExtension
    ensures r.Ok? ==>
      var ext := if Suffix(f1) != "" then Suffix(f1) else Suffix(f2);
      && IsExtension(ext)
      && r.value.0 == Parent(f1) + Stem(f1) + ext
      && r.value.1 == Parent(f2) + Stem(f2) + ext
    ensures r.Ok? && Suffix(f1) != "" ==> r.value.0 == f1
    ensures r.Ok? && (Suffix(f1) == "" || Suffix(f2) == Suffix(f1)) ==> r.value.1 == f2
  {
    StemSuffixSplit(f1);
    StemSuffixSplit(f2);
    PathDecomposition(f1);
    PathDecomposition(f2);
    var ext :=
      if Suffix(f1) == "" then
        if Suffix(f2) == "" then Err(MissingExtension) else Ok(Suffix(f2))
      else Ok(Suffix(f1));
    if ext.Err? then Err(ext.error)
    else
      var e := ext.value;
      var g1 := if Suffix(f1) != e then ReplaceExt(f1, e) else f1;
      var g2 := if Suffix(f2) != e then ReplaceExt(f2, e) else f2;
      Ok((g1, g2))
  }

  /** Both names `match_ext` returns carry the chosen extension as their
      suffix, provided their final components are not empty. */
  lemma MatchExtSuffixes(f1: string, f2: string)
    requires Suffix(f1) != "" || Suffix(f2) != ""
    requires Name(f1) != "" && Name(f2) != ""
    ensures var ext := if Suffix(f1) != "" then Suffix(f1) else Suffix(f2);
      Suffix(MatchExt(f1, f2).value.0) == ext && Suffix(MatchExt(f1, f2).value.1) == ext
  {
    var ext := if Suffix(f1) != "" then Suffix(f1) else Suffix(f2);
    ReplaceExtRoundTrip(f1, ext);
    ReplaceExtRoundTrip(f2, ext);
  }

  /** The `.wav` name `convert2wav` writes to: the input path with its
      suffix, if any, replaced by `.wav`. */
  function Convert2WavName(p: string): (r: string)
    ensures r == ReplaceExt(p, ".wav")
    ensures r == Parent(p) + Stem(p) + ".wav"
    ensures Name(p) != "" ==> Suffix(r) == ".wav" && Stem(r) == Stem(p) && Parent(r) == Parent(p)
  {
    ReplaceExtRoundTrip(p, ".wav");
    var suffix := Suffix(p);
    var f := if suffix == "" then p else p[..|p| - |suffix|];
    assert f == p[..|p| - |suffix|];
    f + ".wav"
  }

  /** `adjustname(filename, adjustment)`: the final component with
      `adjustment` (or `_adj` when it is empty) inserted between stem and
      suffix. The directory is dropped. */
  function AdjustName(p: string, adjustment: string): string {
    var adj := if adjustment != "" then adjustment else "_adj";
    Stem(p) + adj + Suffix(p)
  }

  /** A separator-free text inserted between a non-empty stem and a
      well-formed extension joins the stem and leaves the extension. */
  lemma InsertBeforeExtension(stem: string, adj: string, ext: string)
    requires stem != "" && Avoids(stem, '/') && Avoids(adj, '/')
    requires IsExtension(ext)
    ensures Parent(stem + adj + ext) == ""
    ensures Stem(stem + adj + ext) == stem + adj
    ensures Suffix(stem + adj + ext) == ext
  {
    forall k | 0 <= k < |stem + adj|
      ensures (stem + adj)[k] != '/'
    {
      if k >= |stem| {
        assert (stem + adj)[k] == adj[k - |stem|];
      }
    }
    assert "" + (stem + adj) + ext == stem + adj + ext;
    ComposedPathSplits("", stem + adj, ext);
  }

  /** A name with a suffix keeps it through `adjustname` when the adjustment
      holds no separator; the adjustment joins the stem. */
  lemma AdjustNameKeepsSuffix(p: string, adjustment: string)
    requires Suffix(p) != ""
    requires Avoids(adjustment, '/')
    ensures var adj := if adjustment != "" then adjustment else "_adj";
      && Parent(AdjustName(p, adjustment)) == ""
      && Stem(AdjustName(p, adjustment)) == Stem(p) + adj
      && Suffix(AdjustName(p, adjustment)) == Suffix(p)
  {
    var adj := if adjustment != "" then adjustment else "_adj";
    StemSuffixSplit(p);
    StemShape(p);
    assert Avoids(adj, '/');
    InsertBeforeExtension(Stem(p), adj, Suffix(p));
  }

  /** The sound-file subtype `newbitdepth` converts to: `PCM_16` or `PCM_32`;
      any other bit depth is refused. */
  function BitdepthSubtype(bitdepth: int): (r: Result<string>)
    ensures r.Ok? <==> bitdepth == 16 || bitdepth == 32
    ensures r.Err? ==> r.error == UnsupportedBitdepth
    ensures bitdepth == 16 ==> r == Ok("PCM_16")
    ensures bitdepth == 32 ==> r == Ok("PCM_32")
  {
    if bitdepth == 16 then Ok("PCM_16")
    else if bitdepth == 32 then Ok("PCM_32")
    else Err(UnsupportedBitdepth)
  }

  /** The file name `newbitdepth` saves to when given no new name and no
      permission to overwrite: the final component with `_bitdepth16` or
      `_bitdepth32` before its suffix. The bit depth is checked first. */
  function BitdepthFileName(wave: string, bitdepth: int): (r: Result<string>)
    ensures r.Ok? <==> BitdepthSubtype(bitdepth).Ok?
    ensures r.Err? ==> r.error == UnsupportedBitdepth
    ensures r.Ok? && Suffix(wave) != "" ==>
      && Suffix(r.value) == Suffix(wave)
      && Stem(r.value) == Stem(wave) + ("_bitdepth" + if bitdepth == 16 then "16" else "32")
  {
    var _ :- BitdepthSubtype(bitdepth);
    var adjustment := "_bitdepth" + if bitdepth == 16 then "16" else "32";
    assert Avoids(adjustment, '/') by {
      forall k | 0 <= k < |adjustment|
        ensures adjustment[k] != '/'
      {
        assert adjustment[k] in "_bitdepth0123456789";
      }
    }
    if Suffix(wave) == "" then Ok(AdjustName(wave, adjustment))
    else AdjustNameKeepsSuffix(wave, adjustment); Ok(AdjustName(wave, adjustment))
  }
}
