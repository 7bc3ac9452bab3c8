/** The upload filename check `allowed_file` and the extension set it uses. */
module Upload {
  import opened Optional
  import opened Strings

  /** The set of accepted image extensions, all lower-case. */
  const AllowedExtensions: set<string> := {"png", "jpg", "jpeg", "gif"}

  /** Index of the last occurrence of `c` in `s`, if there is one. */
  function LastIndexOf(s: string, c: char): (r: Option<nat>)
    ensures r.None? <==> c !in s
    ensures r.Some? ==> r.value < |s| && s[r.value] == c && c !in s[r.value + 1..]
    decreases |s|
  {
    if s == [] then None
    else if s[|s| - 1] == c then Some(|s| - 1)
    else
      var r := LastIndexOf(s[..|s| - 1], c);
      assert s == s[..|s| - 1] + [s[|s| - 1]];
      r
  }

  /** `s.rsplit(c, 1)`: `s` unchanged when it has no `c`, otherwise the text
      before and the text after the last `c`. */
  function RSplitOnce(s: string, c: char): (parts: seq<string>)
    ensures c !in s ==> parts == [s]
    ensures c in s ==> |parts| == 2 && s == parts[0] + [c] + parts[1] && c !in parts[1]
  {
    match LastIndexOf(s, c)
    case None => [s]
    case Some(k) =>
      assert s == s[..k] + [c] + s[k + 1..];
      [s[..k], s[k + 1..]]
  }

  /** `allowed_file`: the name has a dot, and the text after its last dot,
      lower-cased, is an allowed extension. The `and` is short-circuit, so
      the split is only looked at when a dot is present. */
  function AllowedFile(filename: string): (ok: bool)
    ensures ok ==> '.' in filename
    ensures ok ==> 3 <= |RSplitOnce(filename, '.')[1]| <= 4
  {
    '.' in filename && Lower(RSplitOnce(filename, '.')[1]) in AllowedExtensions
  }

  /** Splitting at the last `c` undoes gluing a stem and a `c`-free tail
      together with `c`. */
  lemma {:induction false} RSplitOnceOfJoin(stem: string, c: char, tail: string)
    requires c !in tail
    ensures RSplitOnce(stem + [c] + tail, c) == [stem, tail]
  {
    var s := stem + [c] + tail;
    assert s[|stem|] == c;
    var parts := RSplitOnce(s, c);
    assert |parts[1]| == |tail|;
    assert parts[1] == s[|s| - |tail|..] == tail;
    assert parts[0] == s[..|stem|] == stem;
  }

  /** Once the name is written as stem, the last dot and an extension free of
      dots, the check accepts it exactly when the lower-cased extension is
      allowed; the stem plays no part and may be empty. Together with
      NoDotRejected this decides every filename. */
  lemma {:induction false} AllowedFileIff(stem: string, ext: string)
    requires '.' !in ext
    ensures AllowedFile(stem + "." + ext) <==> Lower(ext) in AllowedExtensions
  {
    RSplitOnceOfJoin(stem, '.', ext);
  }

  /** A name without a dot is always refused. */
  lemma NoDotRejected(filename: string)
    requires '.' !in filename
    ensures !AllowedFile(filename)
  {
  }

  lemma LowerKeepsDots(s: string)
    ensures '.' in s <==> '.' in Lower(s)
  {
    if '.' in s {
      var i :| 0 <= i < |s| && s[i] == '.';
      assert Lower(s)[i] == '.';
    }
    if '.' in Lower(s) {
      var i :| 0 <= i < |s| && Lower(s)[i] == '.';
      assert s[i] == '.';
    }
  }

  lemma LowerIdempotent(s: string)
    ensures Lower(Lower(s)) == Lower(s)
  {
  }

  /** Lower-casing the whole name does not change the verdict. */
  lemma {:induction false} AllowedFileOfLower(f: string)
    ensures AllowedFile(Lower(f)) == AllowedFile(f)
  {
    LowerKeepsDots(f);
    if '.' in f {
      var parts := RSplitOnce(f, '.');
      var stem, ext := parts[0], parts[1];
      assert f == stem + "." + ext;
      LowerAroundDot(stem, ext);
      AllowedFileIff(Lower(stem), Lower(ext));
      AllowedFileIff(stem, ext);
      LowerIdempotent(ext);
    }
  }

  /** Lowering `stem.ext` lowers the stem and the extension on their own,
      and a dot-free extension stays dot-free. */
  lemma {:induction false} LowerAroundDot(stem: string, ext: string)
    requires '.' !in ext
    ensures Lower(stem + "." + ext) == Lower(stem) + "." + Lower(ext)
    ensures '.' !in Lower(ext)
  {
    LowerAppend(stem + ".", ext);
    LowerAppend(stem, ".");
    LowerKeepsDots(ext);
  }

  /** The check ignores case: two names that agree once lower-cased are
      accepted or refused together (so `X.PNG` is treated as `x.png`). */
  lemma {:induction false} CaseInsensitive(f: string, g: string)
    requires Lower(f) == Lower(g)
    ensures AllowedFile(f) == AllowedFile(g)
  {
    AllowedFileOfLower(f);
    AllowedFileOfLower(g);
  }

  /** An upper-case extension is accepted. */
  lemma UpperCaseExtensionAccepted()
    ensures AllowedFile("X.PNG")
  {
    AllowedFileIff("X", "PNG");
    assert Lower("PNG") == "png";
  }
}
