/**
 * The multer configuration of src/utils/upload.js: which files the filter lets through, the
 * name a stored file gets, and the size limit. Node's `path.extname` on POSIX paths is part of
 * the model because the filter and the stored name both depend on it.
 */
module Upload {
  import opened Wrappers
  import opened Text

  /** `limits.fileSize`: five mebibytes. */
  const MaxFileSize := 5 * 1024 * 1024
  const NotAnImage := "이미지 파일만 업로드 가능합니다."
  /** The message multer gives a file cut off at the size limit. */
  const TooLarge := "File too large"
  /** The alternatives of `/jpeg|jpg|png|gif|webp/`. */
  const ImageTypes := ["jpeg", "jpg", "png", "gif", "webp"]

  /** The path without its trailing slashes. */
  function DropTrailingSlashes(p: string): (r: string)
    ensures |r| <= |p| && r == p[..|r|] && (r == [] || r[|r| - 1] != '/')
    ensures forall i :: |r| <= i < |p| ==> p[i] == '/'
  {
    if p != [] && p[|p| - 1] == '/' then DropTrailingSlashes(p[..|p| - 1]) else p
  }

  /** The last index of `c` in `s`, if any. */
  function LastIndex(s: string, c: char): (r: Option<nat>)
    ensures r.Some? ==> r.value < |s| && s[r.value] == c && forall i :: r.value < i < |s| ==> s[i] != c
    ensures r.None? <==> c !in s
  {
    if s == [] then None
    else if s[|s| - 1] == c then Some(|s| - 1)
    else
      var r := LastIndex(s[..|s| - 1], c);
      assert forall i :: 0 <= i < |s| - 1 ==> s[i] == s[..|s| - 1][i];
      r
  }

  /** The last path component, trailing slashes ignored. */
  function BaseName(p: string): (b: string)
    ensures '/' !in b
  {
    var q := DropTrailingSlashes(p);
    match LastIndex(q, '/')
    case None => q
    case Some(i) => q[i + 1..]
  }

  /**
   * `path.extname`: from the last `.` of the last component to its end; nothing when that
   * component has no `.`, starts with its only leading dot run right before it (`.bashrc`), or
   * is `..`.
   */
  function ExtName(p: string): (e: string)
    ensures e == [] || (e[0] == '.' && '.' !in e[1..] && '/' !in e)
  {
    var b := BaseName(p);
    match LastIndex(b, '.')
    case None => []
    case Some(d) =>
      // `b == ".."`, given that the last dot of b is at d
      if d == 0 || (d == 1 && |b| == 2 && b[0] == '.') then []
      else
        var e := b[d..];
        assert '/' !in e by {
          forall i | 0 <= i < |e| ensures e[i] != '/' {
            assert e[i] == b[d + i] && b[d + i] in b;
          }
        }
        assert '.' !in e[1..] by {
          forall i | 0 <= i < |e| - 1 ensures e[1..][i] != '.' {
            assert e[1..][i] == b[d + 1 + i];
          }
        }
        e
  }

  /** `pattern.test(s)` for the unanchored alternation: one of the image type names occurs in `s`. */
  predicate MentionsImageType(s: string) {
    exists k :: 0 <= k < |ImageTypes| && Includes(s, ImageTypes[k])
  }

  datatype UploadFile = UploadFile(originalName: string, mimetype: string, size: nat)

  /**
   * fileFilter: no file is fine (the image is optional); a file passes when both its lower-cased
   * extension and its mimetype, as sent, mention an image type.
   */
  function FileFilter(file: Option<UploadFile>): (verdict: Option<string>)
    ensures file.None? ==> verdict.None?
    ensures file.Some? ==>
              (verdict.None? <==> MentionsImageType(Lower(ExtName(file.value.originalName))) && MentionsImageType(file.value.mimetype))
    ensures verdict.Some? ==> verdict.value == NotAnImage
  {
    match file
    case None => None
    case Some(f) =>
      if MentionsImageType(f.mimetype) && MentionsImageType(Lower(ExtName(f.originalName))) then None
      else Some(NotAnImage)
  }

  /** The stored name: `Date.now()`, a dash, the random number, then the original extension. */
  function StoredName(now: nat, random: nat, originalName: string): (name: string)
  {
    NatString(now) + "-" + NatString(random) + ExtName(originalName)
  }

  /** The stem of a stored name, two numbers and a dash, holds neither a dot nor a slash. */
  lemma {:induction false} StemPlain(now: nat, random: nat)
    ensures var stem := NatString(now) + "-" + NatString(random);
            stem != [] && '.' !in stem && '/' !in stem
  {
    var a, b := NatString(now), NatString(random);
    var stem := a + "-" + b;
    forall i | 0 <= i < |stem| ensures stem[i] != '.' && stem[i] != '/' {
      if i < |a| {
        assert stem[i] == a[i] && IsDigit(a[i]);
      } else if i > |a| {
        assert stem[i] == b[i - |a| - 1] && IsDigit(b[i - |a| - 1]);
      }
    }
  }

  /** A path with no slash is its own last component. */
  lemma BaseNameNoSlash(p: string)
    requires '/' !in p
    ensures BaseName(p) == p
  {
    assert p == [] || p[|p| - 1] != '/';
    assert DropTrailingSlashes(p) == p;
  }

  /** Appending an extension to a plain stem gives a name whose extension is that one. */
  lemma {:induction false} ExtNameOfPlainStem(stem: string, e: string)
    requires stem != [] && '.' !in stem && '/' !in stem
    requires e == [] || (e[0] == '.' && '.' !in e[1..] && '/' !in e)
    ensures ExtName(stem + e) == e
  {
    var name := stem + e;
    assert '/' !in name by {
      forall i | 0 <= i < |name| ensures name[i] != '/' {
        if i < |stem| { assert name[i] == stem[i]; } else { assert name[i] == e[i - |stem|]; }
      }
    }
    BaseNameNoSlash(name);
    if e == [] {
      assert name == stem;
    } else {
      assert name[|stem|] == '.';
      forall i | |stem| < i < |name| ensures name[i] != '.' {
        assert name[i] == e[1..][i - |stem| - 1];
      }
      assert LastIndex(name, '.') == Some(|stem|);
      assert name[0] == stem[0] && name[0] != '.';
      assert name[|stem|..] == e;
    }
  }

  /** The stored file keeps the uploaded file's extension, so the filter's verdict on it does not change. */
  lemma StoredNameKeepsExtension(now: nat, random: nat, originalName: string)
    ensures ExtName(StoredName(now, random, originalName)) == ExtName(originalName)
  {
    StemPlain(now, random);
    ExtNameOfPlainStem(NatString(now) + "-" + NatString(random), ExtName(originalName));
  }

  /** An upper-case extension passes once lower-cased, with the image mimetype as browsers send it. */
  lemma UpperCaseExtensionPasses(stem: string, size: nat)
    requires stem != [] && '.' !in stem && '/' !in stem
    ensures FileFilter(Some(UploadFile(stem + ".JPG", "image/jpeg", size))).None?
  {
    ExtNameOfPlainStem(stem, ".JPG");
    LowerJpg();
    JpgMentioned();
    JpegMimeMentioned();
  }

  lemma LowerJpg()
    ensures Lower(".JPG") == ".jpg"
  {
    var ext := Lower(".JPG");
    forall i | 0 <= i < 4 ensures ext[i] == ".jpg"[i] { }
  }

  lemma JpgMentioned()
    ensures MentionsImageType(".jpg")
  {
    var ext := ".jpg";
    assert ext[1..4] == ImageTypes[1];
    IncludesWithin(ext, 1, ImageTypes[1]);
  }

  lemma JpegMimeMentioned()
    ensures MentionsImageType("image/jpeg")
  {
    var mime := "image/jpeg";
    assert mime[6..10] == ImageTypes[0];
    IncludesWithin(mime, 6, ImageTypes[0]);
  }

  /** A dot file such as `.png` has no extension in Node's sense, so it is refused whatever its mimetype. */
  lemma DotFileRefused(mimetype: string, size: nat)
    ensures FileFilter(Some(UploadFile(".png", mimetype, size))) == Some(NotAnImage)
  {
    BaseNameNoSlash(".png");
    assert LastIndex(".png", '.') == Some(0);
    assert ExtName(".png") == [];
    forall k | 0 <= k < |ImageTypes| ensures !Includes(Lower([]), ImageTypes[k]) {
      assert |ImageTypes[k]| >= 3;
      assert IndexOf([], ImageTypes[k]) == None;
    }
  }

  datatype Outcome = NoFile | Stored(name: string) | Refused(error: string)

  /**
   * One upload: the filter first, then the size limit while the file streams in (a file of
   * exactly the limit is kept), then the disk name.
   */
  function Accept(file: Option<UploadFile>, now: nat, random: nat): (o: Outcome)
    ensures file.None? <==> o.NoFile?
    ensures o.Stored? <==> file.Some? && FileFilter(file).None? && file.value.size <= MaxFileSize
    ensures o.Stored? ==> ExtName(o.name) == ExtName(file.value.originalName)
    ensures o.Refused? ==> o.error == (if FileFilter(file).Some? then NotAnImage else TooLarge)
  {
    match file
    case None => NoFile
    case Some(f) =>
      if FileFilter(file).Some? then Refused(NotAnImage)
      else if f.size > MaxFileSize then Refused(TooLarge)
      else
        StoredNameKeepsExtension(now, random, f.originalName);
        Stored(StoredName(now, random, f.originalName))
  }
}
