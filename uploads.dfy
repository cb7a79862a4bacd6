/**
 * The image store of the catalog server: multer's disk storage names each
 * uploaded file `<Date.now()>_<sanitised base name><extension>`, and the
 * handlers refer to a stored file through the public `/uploads/` mount.
 * Node's `path.extname` and `path.basename` are modelled on POSIX paths.
 */
module Uploads {
  import opened Common

  /** The public mount point under which stored uploads are served. */
  const UploadsPrefix: string := "/uploads/"

  /** A file as multer hands it to the naming callback: the client's file
      name and the clock reading (`Date.now()`, ms) taken when it is named. */
  datatype Upload = Upload(originalName: string, savedAt: nat)

  // ---------------------------------------------------------------------
  // path.basename / path.extname (POSIX)

  /** `p` without its trailing separators. */
  function TrimTrailingSlashes(p: string): (r: string)
    ensures |r| <= |p| && p[..|r|] == r
    ensures r == [] || r[|r| - 1] != '/'
    ensures forall i :: |r| <= i < |p| ==> p[i] == '/'
  {
    if |p| > 0 && p[|p| - 1] == '/' then TrimTrailingSlashes(p[..|p| - 1]) else p
  }

  /** The characters of `t` after its last separator. */
  function AfterLastSlash(t: string): (r: string)
    ensures |r| <= |t| && t[|t| - |r|..] == r
    ensures forall i :: 0 <= i < |r| ==> r[i] != '/'
    ensures |r| < |t| ==> t[|t| - |r| - 1] == '/'
  {
    if t == [] || t[|t| - 1] == '/' then []
    else AfterLastSlash(t[..|t| - 1]) + [t[|t| - 1]]
  }

  /** The last component of `p`, which `path.basename(p)` returns. */
  function Segment(p: string): (r: string)
    ensures forall i :: 0 <= i < |r| ==> r[i] != '/'
  {
    AfterLastSlash(TrimTrailingSlashes(p))
  }

  /** The index of the last `.` in `s`, or -1. */
  function LastDot(s: string): (d: int)
    ensures -1 <= d < |s|
    ensures d >= 0 ==> s[d] == '.'
    ensures forall i :: d < i < |s| ==> s[i] != '.'
  {
    if s == [] then -1
    else if s[|s| - 1] == '.' then |s| - 1
    else LastDot(s[..|s| - 1])
  }

  /** The extension of a path component: from its last `.` to its end, or
      empty when it has no `.`, starts with its only `.` (a dot file) or is `..`. */
  function ExtOf(seg: string): string {
    var d := LastDot(seg);
    if d <= 0 || seg == ".." then "" else seg[d..]
  }

  /** A path component without its extension. */
  function BaseOf(seg: string): string {
    seg[..|seg| - |ExtOf(seg)|]
  }

  /** `path.extname(p)`: the extension of the last component. */
  function ExtName(p: string): string {
    ExtOf(Segment(p))
  }

  /** `path.basename(p, path.extname(p))`: the last component without its extension. */
  function BaseName(p: string): string {
    BaseOf(Segment(p))
  }

  /** The extension is a suffix of the component; removing it leaves a
      non-empty base, so base and extension split the component in two. */
  lemma SplitComponent(seg: string)
    ensures BaseOf(seg) + ExtOf(seg) == seg
    ensures ExtOf(seg) != "" ==> ExtOf(seg)[0] == '.' && BaseOf(seg) != ""
    ensures forall i :: 1 <= i < |ExtOf(seg)| ==> ExtOf(seg)[i] != '.'
  {
    var d := LastDot(seg);
    if d > 0 && seg != ".." {
      assert ExtOf(seg) == seg[d..];
      assert BaseOf(seg) == seg[..d];
    }
  }

  /** Basename and extname split the last component of `p` in two. */
  lemma SplitExtension(p: string)
    ensures BaseName(p) + ExtName(p) == Segment(p)
    ensures ExtName(p) != "" ==> ExtName(p)[0] == '.' && BaseName(p) != ""
    ensures forall i :: 1 <= i < |ExtName(p)| ==> ExtName(p)[i] != '.'
    ensures forall i :: 0 <= i < |ExtName(p)| ==> ExtName(p)[i] != '/'
  {
    var seg := Segment(p);
    SplitComponent(seg);
    var b, e := BaseOf(seg), ExtOf(seg);
    forall i | 0 <= i < |e| ensures e[i] != '/' {
      assert e[i] == (b + e)[|b| + i];
    }
  }

  // ---------------------------------------------------------------------
  // The filename callback

  predicate IsAsciiAlnum(c: char) {
    ('a' <= c <= 'z') || ('A' <= c <= 'Z') || ('0' <= c <= '9')
  }

  /** `s.replace(/[^a-z0-9]/gi, '_')`: every character outside `[A-Za-z0-9]` becomes `_`. */
  function ReplaceNonAlnum(s: string): (r: string)
    ensures |r| == |s|
    ensures forall i :: 0 <= i < |r| ==> IsAsciiAlnum(r[i]) || r[i] == '_'
  {
    seq(|s|, i requires 0 <= i < |s| => if IsAsciiAlnum(s[i]) then s[i] else '_')
  }

  function LowerChar(c: char): char {
    if 'A' <= c <= 'Z' then (c as int + 32) as char else c
  }

  /** `s.toLowerCase()` on a string of ASCII characters. */
  function AsciiLowerCase(s: string): (r: string)
    requires forall i :: 0 <= i < |s| ==> s[i] as int < 128
    ensures |r| == |s|
  {
    seq(|s|, i requires 0 <= i < |s| => LowerChar(s[i]))
  }

  /** The sanitised base name: only `[a-z0-9_]`, one character per original
      character, lower-case letters and digits kept, upper-case letters
      lower-cased, and every other character turned into `_`. */
  function SanitizeBase(base: string): (r: string)
    ensures |r| == |base|
    ensures forall i :: 0 <= i < |r| ==> ('a' <= r[i] <= 'z') || ('0' <= r[i] <= '9') || r[i] == '_'
    ensures forall i :: 0 <= i < |r| ==> (IsAsciiAlnum(base[i]) <==> r[i] != '_')
    ensures forall i :: 0 <= i < |r| && ('a' <= base[i] <= 'z' || '0' <= base[i] <= '9') ==> r[i] == base[i]
    ensures forall i :: 0 <= i < |r| && 'A' <= base[i] <= 'Z' ==> r[i] == (base[i] as int + 32) as char
  {
    AsciiLowerCase(ReplaceNonAlnum(base))
  }

  /** `${base}${ext}`: the sanitised base name followed by the original extension. */
  function SanitizedName(originalName: string): string {
    SanitizeBase(BaseName(originalName)) + ExtName(originalName)
  }

  /** The name multer gives the stored file: `${Date.now()}_${base}${ext}`. */
  function StoredFileName(u: Upload): string {
    DecimalString(u.savedAt) + "_" + SanitizedName(u.originalName)
  }

  /** The path the handlers record for a stored file: `/uploads/` followed
      by `path.basename(file.path)`, which is the stored file name
      (see StoredFileBasename). */
  function StoredPath(u: Upload): (r: string)
    ensures StartsWith(r, UploadsPrefix)
  {
    UploadsPrefix + StoredFileName(u)
  }

  /** The sanitised name ends with the original extension, verbatim. */
  lemma SanitizedNameKeepsExtension(name: string)
    ensures |SanitizedName(name)| == |Segment(name)|
    ensures SanitizedName(name)[|SanitizedName(name)| - |ExtName(name)|..] == ExtName(name)
  {
    SplitExtension(name);
  }

  predicate NoSeparator(s: string) {
    forall i :: 0 <= i < |s| ==> s[i] != '/'
  }

  lemma NoSeparatorConcat(a: string, b: string)
    requires NoSeparator(a) && NoSeparator(b)
    ensures NoSeparator(a + b)
  {
    forall i | 0 <= i < |a + b| ensures (a + b)[i] != '/' {
      if i >= |a| {
        assert (a + b)[i] == b[i - |a|];
      }
    }
  }

  /** Sanitising introduces no separator. */
  lemma SanitizedNameHasNoSeparator(name: string)
    ensures NoSeparator(SanitizedName(name))
  {
    var s := SanitizeBase(BaseName(name));
    var e := ExtName(name);
    assert NoSeparator(s) by {
      forall i | 0 <= i < |s| ensures s[i] != '/' {
        assert ('a' <= s[i] <= 'z') || ('0' <= s[i] <= '9') || s[i] == '_';
      }
    }
    assert NoSeparator(e) by {
      SplitExtension(name);
    }
    NoSeparatorConcat(s, e);
  }

  /** A stored name has no separator in it. */
  lemma StoredFileNameHasNoSeparator(u: Upload)
    ensures NoSeparator(StoredFileName(u))
  {
    var d := DecimalString(u.savedAt);
    SanitizedNameHasNoSeparator(u.originalName);
    assert NoSeparator(d);
    NoSeparatorConcat(d, "_");
    NoSeparatorConcat(d + "_", SanitizedName(u.originalName));
  }

  lemma {:induction false} AfterLastSlashOfJoin(dir: string, name: string)
    requires NoSeparator(name)
    ensures AfterLastSlash(dir + "/" + name) == name
    decreases |name|
  {
    var t := dir + "/" + name;
    if name == [] {
      assert t[|t| - 1] == '/';
    } else {
      assert t[..|t| - 1] == dir + "/" + name[..|name| - 1];
      AfterLastSlashOfJoin(dir, name[..|name| - 1]);
      assert name == name[..|name| - 1] + [name[|name| - 1]];
    }
  }

  /** Whatever the upload directory, `path.basename` of the stored file's
      full path (`path.join(dir, filename)`) is the stored file name. */
  lemma StoredFileBasename(dir: string, u: Upload)
    ensures Segment(dir + "/" + StoredFileName(u)) == StoredFileName(u)
  {
    StoredFileNameHasNoSeparator(u);
    var n := StoredFileName(u);
    var t := dir + "/" + n;
    assert t[|t| - 1] == n[|n| - 1];
    assert TrimTrailingSlashes(t) == t;
    AfterLastSlashOfJoin(dir, n);
  }

  /** Two uploads named at different clock readings get different stored
      names, whatever their original names: the timestamp prefix alone
      keeps stored files apart. */
  lemma StoredNamesDifferBySavedAt(u: Upload, v: Upload)
    requires u.savedAt != v.savedAt
    ensures StoredFileName(u) != StoredFileName(v)
  {
    var ru, rv := SanitizedName(u.originalName), SanitizedName(v.originalName);
    if StoredFileName(u) == StoredFileName(v) {
      assert DecimalString(u.savedAt) + "_" + ru == DecimalString(v.savedAt) + "_" + rv;
      DecimalPrefixInjective(u.savedAt, v.savedAt, ru, rv);
    }
  }
}
