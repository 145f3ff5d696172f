/** Go's `filepath.Ext` on `/`-separated names, and the case-insensitive
    extension switch the import handler applies to the uploaded file name. */
module FilePath {
  import opened Wrappers
  import opened Text

  /** `filepath.Ext`: the suffix from the last '.' of the last path element,
      or "" when that element has no '.'. */
  function Ext(path: string): string
    decreases |path|
  {
    if path == [] || path[|path| - 1] == '/' then ""
    else if path[|path| - 1] == '.' then "."
    else
      var e := Ext(path[..|path| - 1]);
      if e == "" then "" else e + [path[|path| - 1]]
  }

  /** Adding a character that is neither '.' nor '/' extends a non-empty
      extension by that character and leaves an empty one empty. */
  lemma ExtSnoc(p: string, c: char)
    requires c != '.' && c != '/'
    ensures Ext(p + [c]) == if Ext(p) == "" then "" else Ext(p) + [c]
  {
    var q := p + [c];
    assert q[|q| - 1] == c;
    assert q[..|q| - 1] == p;
  }

  /** A name whose last `k` characters are a '.' followed by characters that
      are neither '.' nor '/' has those `k` characters as its extension. */
  lemma {:induction false} ExtOfEnding(path: string, k: nat)
    requires 1 <= k <= |path| && path[|path| - k] == '.'
    requires forall i :: |path| - k < i < |path| ==> path[i] != '.' && path[i] != '/'
    ensures Ext(path) == path[|path| - k..]
    decreases k
  {
    var n := |path|;
    if k == 1 {
      assert path[n - 1] == '.';
    } else {
      var p', c := path[..n - 1], path[n - 1];
      assert path == p' + [c];
      ExtOfEnding(p', k - 1);
      var e := p'[|p'| - (k - 1)..];
      assert e != "" by { assert e[0] == '.'; }
      ExtSnoc(p', c);
      assert path[n - k..] == e + [c];
    }
  }

  datatype FileKind = Csv | Xlsx

  /** The switch on `strings.ToLower(filepath.Ext(filename))`. */
  function FileKindOf(filename: string): Option<FileKind> {
    var ext := ToLower(Ext(filename));
    if ext == ".csv" then Some(Csv) else if ext == ".xlsx" then Some(Xlsx) else None
  }

  predicate IsLowerExt(x: string) {
    |x| >= 2 && x[0] == '.' && forall i :: 1 <= i < |x| ==> 'a' <= x[i] <= 'z'
  }

  /** A name whose characters lower to `x` starts with '.' and has no
      '.' or '/' after it. */
  lemma LowersToExt(s: string, x: string)
    requires IsLowerExt(x) && ToLower(s) == x
    ensures |s| == |x| && s[0] == '.'
    ensures forall i :: 1 <= i < |s| ==> s[i] != '.' && s[i] != '/'
  {
    assert LowerChar(s[0]) == x[0];
    forall i | 1 <= i < |s| ensures s[i] != '.' && s[i] != '/' {
      assert LowerChar(s[i]) == x[i];
    }
  }

  /** The extension, lowered, is `x` only if the name ends with it. */
  lemma LowerExtEnds(filename: string, x: string)
    requires ToLower(Ext(filename)) == x
    ensures |filename| >= |x| && ToLower(filename[|filename| - |x|..]) == x
  {
    LowerExtIsLowerSuffix(filename);
    LowerSuffix(filename, |filename| - |Ext(filename)|, x);
  }

  lemma LowerExtIsLowerSuffix(path: string)
    ensures |Ext(path)| <= |path| && ToLower(Ext(path)) == ToLower(path[|path| - |Ext(path)|..])
  {
    ExtIsSuffix(path);
  }

  /** A suffix that lowers to `x` is the last `|x|` characters. */
  lemma LowerSuffix(f: string, k: int, x: string)
    requires 0 <= k <= |f| && ToLower(f[k..]) == x
    ensures |f| >= |x| && ToLower(f[|f| - |x|..]) == x
  {
    assert |f[k..]| == |x|;
  }

  /** The extension is a suffix of the name. */
  lemma {:induction false} ExtIsSuffix(path: string)
    ensures |Ext(path)| <= |path| && Ext(path) == path[|path| - |Ext(path)|..]
    decreases |path|
  {
    var n := |path|;
    if n > 0 && path[n - 1] != '/' && path[n - 1] != '.' {
      var p', c := path[..n - 1], path[n - 1];
      assert path == p' + [c];
      ExtIsSuffix(p');
      ExtSnoc(p', c);
    }
  }

  /** A non-empty extension starts with '.' and has no other '.' and no '/'. */
  lemma {:induction false} ExtShape(path: string)
    ensures var e := Ext(path);
      e != "" ==> e[0] == '.' && forall i :: 1 <= i < |e| ==> e[i] != '.' && e[i] != '/'
    decreases |path|
  {
    var n := |path|;
    if n > 0 && path[n - 1] != '/' && path[n - 1] != '.' {
      var p', c := path[..n - 1], path[n - 1];
      assert path == p' + [c];
      ExtShape(p');
      ExtSnoc(p', c);
    }
  }

  /** A name ending with `x` in any case ends with a '.' followed by
      characters that are neither '.' nor '/'. */
  lemma EndsWithDotSuffix(filename: string, x: string)
    requires IsLowerExt(x)
    requires |filename| >= |x| && ToLower(filename[|filename| - |x|..]) == x
    ensures filename[|filename| - |x|] == '.'
    ensures forall i :: |filename| - |x| < i < |filename| ==> filename[i] != '.' && filename[i] != '/'
  {
    var n := |filename|;
    var s := filename[n - |x|..];
    LowersToExt(s, x);
    assert filename[n - |x|] == s[0];
    forall i | n - |x| < i < n ensures filename[i] != '.' && filename[i] != '/' {
      assert filename[i] == s[i - (n - |x|)];
    }
  }

  /** A name ending with `x` in any case has extension `x`, lowered. */
  lemma EndsLowerExt(filename: string, x: string)
    requires IsLowerExt(x)
    requires |filename| >= |x| && ToLower(filename[|filename| - |x|..]) == x
    ensures ToLower(Ext(filename)) == x
  {
    assert Ext(filename) == filename[|filename| - |x|..] by {
      EndsWithDotSuffix(filename, x);
      ExtOfEnding(filename, |x|);
    }
  }

  /** A file has extension `x` (compared case-insensitively) exactly when its
      name ends with `x` in any case. */
  lemma LowerExtIff(filename: string, x: string)
    requires IsLowerExt(x)
    ensures ToLower(Ext(filename)) == x <==> |filename| >= |x| && ToLower(filename[|filename| - |x|..]) == x
  {
    if ToLower(Ext(filename)) == x {
      LowerExtEnds(filename, x);
    }
    if |filename| >= |x| && ToLower(filename[|filename| - |x|..]) == x {
      EndsLowerExt(filename, x);
    }
  }

  /** The kind chosen for one lower-case extension: the name's extension,
      lowered, is `x` exactly when the name ends with `x` in any case. */
  lemma KindOfExt(filename: string, x: string, kind: FileKind)
    requires x == ".csv" || x == ".xlsx"
    requires kind == (if x == ".csv" then Csv else Xlsx)
    ensures FileKindOf(filename) == Some(kind) <==> |filename| >= |x| && ToLower(filename[|filename| - |x|..]) == x
  {
    assert IsLowerExt(x);
    assert FileKindOf(filename) == Some(kind) <==> ToLower(Ext(filename)) == x;
    LowerExtIff(filename, x);
  }

  /** Only names ending in `.csv` or `.xlsx`, in any case, are accepted. */
  lemma FileKindOfIff(filename: string)
    ensures FileKindOf(filename) == Some(Csv) <==> |filename| >= 4 && ToLower(filename[|filename| - 4..]) == ".csv"
    ensures FileKindOf(filename) == Some(Xlsx) <==> |filename| >= 5 && ToLower(filename[|filename| - 5..]) == ".xlsx"
  {
    KindOfExt(filename, ".csv", Csv);
    KindOfExt(filename, ".xlsx", Xlsx);
  }
}
