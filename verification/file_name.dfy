/** The local file name of the downloaded image (`get_file_name`): the URL's
    path is percent-decoded first and only then split at its last `/`. */
module FileName {
  import opened PercentCoding

  /** The text after the last `/` of `p` (the tail `os.path.split` returns);
      all of `p` when it holds no `/`. */
  function Basename(p: string): string
    decreases |p|
  {
    if |p| == 0 || p[|p| - 1] == '/' then []
    else Basename(p[..|p| - 1]) + [p[|p| - 1]]
  }

  /** The basename is a suffix of the path without `/`, and it is preceded
      by a `/` unless it is the whole path. */
  lemma {:induction false} BasenameIsLastSegment(p: string)
    ensures var r := Basename(p);
      && '/' !in r
      && |r| <= |p| && p[|p| - |r|..] == r
      && (|r| < |p| ==> p[|p| - |r| - 1] == '/')
    decreases |p|
  {
    if |p| == 0 || p[|p| - 1] == '/' {
    } else {
      var q := p[..|p| - 1];
      var c := p[|p| - 1];
      BasenameIsLastSegment(q);
      var rq := Basename(q);
      var r := Basename(p);
      assert r == rq + [c];
      assert p == q + [c];
      assert p[|p| - |r|..] == q[|q| - |rq|..] + [c];
      if |r| < |p| {
        assert p[|p| - |r| - 1] == q[|q| - |rq| - 1];
      }
    }
  }

  /** The file name derived from the path component of the image URL. */
  function GetFileName(urlPath: string): string {
    Basename(Unquote(urlPath))
  }

  /** The derived name never contains `/`. */
  lemma FileNameHasNoSlash(urlPath: string)
    ensures '/' !in GetFileName(urlPath)
  {
    BasenameIsLastSegment(Unquote(urlPath));
  }

  /** The properties of `BasenameIsLastSegment` pin the basename down: the
      longest suffix without `/` is the only string that has them. */
  lemma BasenameUnique(p: string, r: string)
    requires '/' !in r
    requires |r| <= |p| && p[|p| - |r|..] == r
    requires |r| < |p| ==> p[|p| - |r| - 1] == '/'
    ensures Basename(p) == r
  {
    BasenameIsLastSegment(p);
    LastSegmentUnique(p, r, Basename(p));
  }

  /** Two `/`-free suffixes of `p`, each preceded by `/` unless it is all of
      `p`, are the same string. */
  lemma LastSegmentUnique(p: string, r: string, b: string)
    requires '/' !in r && |r| <= |p| && p[|p| - |r|..] == r
    requires |r| < |p| ==> p[|p| - |r| - 1] == '/'
    requires '/' !in b && |b| <= |p| && p[|p| - |b|..] == b
    requires |b| < |p| ==> p[|p| - |b| - 1] == '/'
    ensures r == b
  {
    if |r| < |b| {
      SlashInLongerSuffix(p, r, b);
    } else if |b| < |r| {
      SlashInLongerSuffix(p, b, r);
    }
    assert |r| == |b|;
  }

  /** Of two suffixes of `p`, the longer one contains the character just
      before the shorter one; when that character is `/`, the longer suffix
      holds a `/`. */
  lemma SlashInLongerSuffix(p: string, short: string, long: string)
    requires |short| < |long| <= |p|
    requires p[|p| - |long|..] == long
    ensures long[|long| - |short| - 1] == p[|p| - |short| - 1]
    ensures p[|p| - |short| - 1] == '/' ==> '/' in long
  {
    assert long[|long| - |short| - 1] == p[|p| - |long|..][|long| - |short| - 1];
  }

  lemma BasenameAfterSlash(a: string, b: string)
    ensures Basename(a + "/" + b) == Basename(b)
  {
    var p := a + "/" + b;
    var r := Basename(b);
    BasenameIsLastSegment(b);
    assert p[|p| - |r|..] == b[|b| - |r|..];
    if |r| < |b| {
      assert p[|p| - |r| - 1] == b[|b| - |r| - 1];
    } else {
      assert p[|p| - |r| - 1] == '/';
    }
    BasenameUnique(p, r);
  }

  lemma BasenameWithoutSlash(p: string)
    requires '/' !in p
    ensures Basename(p) == p
  {
    BasenameUnique(p, p);
  }

  /** The name is empty exactly when the decoded path is empty or ends with
      `/`. */
  lemma FileNameEmptyIff(urlPath: string)
    ensures var d := Unquote(urlPath);
      GetFileName(urlPath) == [] <==> |d| == 0 || d[|d| - 1] == '/'
  {
    BasenameIsLastSegment(Unquote(urlPath));
  }

  /** An encoded slash in the last segment acts as a separator: whatever
      precedes `%2F` is dropped from the name. */
  lemma EncodedSlashSeparates(a: string, b: string)
    ensures GetFileName(a + "%2F" + b) == GetFileName(b)
    ensures GetFileName(a + "%2f" + b) == GetFileName(b)
  {
    EncodedSlashDecodes(a, b);
    BasenameAfterSlash(Unquote(a), Unquote(b));
  }

  /** Splitting first and decoding afterwards, the order the source does NOT
      use, would keep a decoded `/` inside the name. */
  function SplitThenDecode(urlPath: string): string {
    Unquote(Basename(urlPath))
  }

  /** Only the last segment of the path matters, even before decoding: an
      escape cannot reach across a `/`. */
  lemma FileNameOfLastSegment(dir: string, t: string)
    ensures GetFileName(dir + "/" + t) == GetFileName(t)
  {
    var d := Unquote(dir);
    var u := Unquote(t);
    assert Unquote("/" + t) == "/" + u by {
      UnquotePlainPrefix("/", t);
    }
    assert Unquote(dir + "/" + t) == d + "/" + u by {
      UnquoteConcat(dir, "/" + t);
      assert dir + "/" + t == dir + ("/" + t);
    }
    assert Basename(d + "/" + u) == Basename(u) by {
      BasenameAfterSlash(d, u);
    }
  }

  /** With `dir + "/" + x + "%2F" + y` (for instance `/a/..%2Fsecret`) the
      source's order yields `y`, while the other order yields `x/y`, a name
      that leaves the download directory. */
  lemma DecodeOrderMatters(dir: string, x: string, y: string)
    requires '%' !in x && '/' !in x
    requires '%' !in y && '/' !in y
    ensures GetFileName(dir + "/" + x + "%2F" + y) == y
    ensures SplitThenDecode(dir + "/" + x + "%2F" + y) == x + "/" + y
    ensures '/' in SplitThenDecode(dir + "/" + x + "%2F" + y)
  {
    var tail := x + "%2F" + y;
    assert dir + "/" + x + "%2F" + y == dir + "/" + tail;
    FileNameOfLastSegment(dir, tail);
    EncodedSlashTail(x, y);
    assert '/' !in tail by {
      assert '/' !in "%2F";
      NotInConcat('/', x, "%2F", y);
    }
    BasenameOfSegment(dir, tail);
    assert (x + "/" + y)[|x|] == '/';
  }

  lemma EncodedSlashTail(x: string, y: string)
    requires '%' !in x && '/' !in x
    requires '%' !in y && '/' !in y
    ensures GetFileName(x + "%2F" + y) == y
    ensures Unquote(x + "%2F" + y) == x + "/" + y
  {
    assert GetFileName(x + "%2F" + y) == y by {
      EncodedSlashSeparates(x, y);
      UnquoteWithoutPercent(y);
      BasenameWithoutSlash(y);
    }
    assert Unquote(x + "%2F" + y) == x + "/" + y by {
      EncodedSlashDecodes(x, y);
      UnquoteWithoutPercent(x);
      UnquoteWithoutPercent(y);
    }
  }

  lemma NotInConcat(c: char, a: string, b: string, d: string)
    requires c !in a && c !in b && c !in d
    ensures c !in a + b + d
  {
  }

  lemma BasenameOfSegment(dir: string, t: string)
    requires '/' !in t
    ensures Basename(dir + "/" + t) == t
  {
    BasenameAfterSlash(dir, t);
    BasenameWithoutSlash(t);
  }

  /** A percent-encoded space inside the last segment: with `dir = "/path"`,
      `stem = "name"` and `ext = "file.png"` this is the path
      `/path/name%20file.png`, whose file name is `name file.png`. */
  lemma EncodedSpaceInName(dir: string, stem: string, ext: string)
    requires '%' !in stem && '/' !in stem
    requires '%' !in ext && '/' !in ext
    ensures GetFileName(dir + "/" + stem + "%20" + ext) == stem + " " + ext
  {
    EscapeInName(dir, stem, "%20", ext);
  }

  /** `%00` in the last segment puts a NUL character into the name: with
      `stem = "a"` and `ext = "b"` the path `/a%00b` yields `a`, NUL, `b`. */
  lemma EncodedNulInName(dir: string, stem: string, ext: string)
    requires '%' !in stem && '/' !in stem
    requires '%' !in ext && '/' !in ext
    ensures GetFileName(dir + "/" + stem + "%00" + ext) == stem + [0 as char] + ext
  {
    EscapeInName(dir, stem, "%00", ext);
  }

  /** A `%` in the last segment that does not start an escape stays in the
      name: with `dir = "/img"`, `stem = "100"` and `ext = ".png"` the path
      `/img/100%.png` yields `100%.png`. */
  lemma StrayPercentInName(dir: string, stem: string, ext: string)
    requires '%' !in stem && '/' !in stem
    requires '%' !in ext && '/' !in ext
    requires !StartsWithEscape("%" + ext)
    ensures GetFileName(dir + "/" + stem + "%" + ext) == stem + "%" + ext
  {
    var tail := stem + "%" + ext;
    assert dir + "/" + stem + "%" + ext == dir + "/" + tail;
    FileNameOfLastSegment(dir, tail);
    StrayPercentBetween(stem, ext);
    UnquoteWithoutPercent(stem);
    UnquoteWithoutPercent(ext);
    assert '/' !in tail by {
      NotInConcat('/', stem, "%", ext);
    }
    BasenameWithoutSlash(tail);
  }

  /** The example `/img/100%.png`: the name is `100%.png`. */
  lemma PercentSignKeptInName()
    ensures GetFileName("/img" + "/" + "100" + "%" + ".png") == "100" + "%" + ".png"
  {
    StrayPercentInName("/img", "100", ".png");
  }

  /** An escape of anything but `/` inside the last segment becomes one
      character of the name. */
  lemma EscapeInName(dir: string, stem: string, e: string, ext: string)
    requires '%' !in stem && '/' !in stem
    requires '%' !in ext && '/' !in ext
    requires |e| == 3 && StartsWithEscape(e)
    requires (16 * HexValue(e[1]) + HexValue(e[2])) as char != '/'
    ensures GetFileName(dir + "/" + stem + e + ext)
         == stem + [(16 * HexValue(e[1]) + HexValue(e[2])) as char] + ext
  {
    var tail := stem + e + ext;
    assert dir + "/" + stem + e + ext == dir + "/" + tail;
    FileNameOfLastSegment(dir, tail);
    EscapeInSegment(stem, e, ext);
  }

  lemma EscapeInSegment(stem: string, e: string, ext: string)
    requires '%' !in stem && '/' !in stem
    requires '%' !in ext && '/' !in ext
    requires |e| == 3 && StartsWithEscape(e)
    requires (16 * HexValue(e[1]) + HexValue(e[2])) as char != '/'
    ensures GetFileName(stem + e + ext)
         == stem + [(16 * HexValue(e[1]) + HexValue(e[2])) as char] + ext
  {
    var c := [(16 * HexValue(e[1]) + HexValue(e[2])) as char];
    var name := stem + c + ext;
    EscapeBetween(stem, e, ext);
    UnquoteWithoutPercent(stem);
    UnquoteWithoutPercent(ext);
    assert '/' !in name by {
      NotInConcat('/', stem, c, ext);
    }
    BasenameWithoutSlash(name);
  }
}
