/** The shared upload filename generator: keep the extension, replace every
    character outside `[A-Za-z0-9_-]` in the base name by `_`, cut the base to
    30 characters, and join it with a compacted ISO timestamp and six random
    base-36 characters. The clock's ISO string and the random string are
    parameters. */
module UploadNaming {
  import opened Common
  import Seqs

  const MaxBaseLength: nat := 30

  /** The text from the last `.` on, when that `.` is not the first
      character; otherwise nothing. */
  function Extension(name: string): (ext: string)
    ensures |ext| <= |name|
    ensures ext != [] ==> ext[0] == '.' && forall j :: 1 <= j < |ext| ==> ext[j] != '.'
  {
    var i := LastIndexOf(name, '.');
    if i > 0 then name[i..] else ""
  }

  /** The name without its extension. */
  function BaseName(name: string): (base: string)
    ensures |base| <= |name| && base == name[..|base|]
  {
    var i := LastIndexOf(name, '.');
    if i > 0 then name[..i] else name
  }

  /** Base and extension split the name; a name whose only `.` is its first
      character, or that has none, is all base. */
  lemma SplitName(name: string)
    ensures BaseName(name) + Extension(name) == name
    ensures LastIndexOf(name, '.') <= 0 <==> Extension(name) == ""
    ensures LastIndexOf(name, '.') > 0 ==> |BaseName(name)| == LastIndexOf(name, '.') >= 1
  {
    var i := LastIndexOf(name, '.');
    if i > 0 {
      assert BaseName(name) == name[..i];
      assert Extension(name) == name[i..];
      assert name[..i] + name[i..] == name;
      assert |name[i..]| == |name| - i >= 1;
    } else {
      assert Extension(name) == "";
      assert BaseName(name) == name;
    }
  }

  /** `.hidden` keeps its whole text as the base and has no extension. */
  lemma LeadingDotOnly(rest: string)
    requires forall j :: 0 <= j < |rest| ==> rest[j] != '.'
    ensures Extension(['.'] + rest) == "" && BaseName(['.'] + rest) == ['.'] + rest
  {
    var name := ['.'] + rest;
    var i := LastIndexOf(name, '.');
    assert name[0] == '.';
    assert i >= 0;
  }

  /** The character class the cleaning step keeps. */
  predicate IsSafeChar(c: char) {
    ('a' <= c <= 'z') || ('A' <= c <= 'Z') || ('0' <= c <= '9') || c == '_' || c == '-'
  }

  /** `replace(/[^a-zA-Z0-9_-]/g, '_')`: character for character, each
      character outside the class becomes `_`. */
  function Sanitize(s: string): (r: string)
    ensures |r| == |s|
    ensures forall i :: 0 <= i < |s| ==> r[i] == (if IsSafeChar(s[i]) then s[i] else '_')
    ensures forall i :: 0 <= i < |r| ==> IsSafeChar(r[i])
  {
    if s == [] then []
    else [if IsSafeChar(s[0]) then s[0] else '_'] + Sanitize(s[1..])
  }

  /** Cleaning a clean name changes nothing. */
  lemma {:induction false} SanitizeIdempotent(s: string)
    ensures Sanitize(Sanitize(s)) == Sanitize(s)
  {
    var once := Sanitize(s);
    assert forall i :: 0 <= i < |once| ==> Sanitize(once)[i] == once[i];
  }

  /** The characters `replace(/[-:.]/g, '')` leaves in place. */
  predicate KeptInTimestamp(c: char) {
    c != '-' && c != ':' && c != '.'
  }

  /** `replace(/[-:.]/g, '')`: exactly the input with the separators taken
      out, every other character kept in order and with its repeats. */
  function StripTimestamp(t: string): (r: string)
    ensures r == Seqs.Filter(t, KeptInTimestamp)
    ensures |r| <= |t|
    ensures forall i :: 0 <= i < |r| ==> r[i] != '-' && r[i] != ':' && r[i] != '.'
    ensures forall c :: c in t && c != '-' && c != ':' && c != '.' ==> c in r
  {
    if t == [] then []
    else (if t[0] == '-' || t[0] == ':' || t[0] == '.' then [] else [t[0]]) + StripTimestamp(t[1..])
  }

  /** The cleaned base: sanitised, at most 30 characters. */
  function CleanedName(name: string): (cleaned: string)
    ensures |cleaned| <= MaxBaseLength
    ensures forall i :: 0 <= i < |cleaned| ==> IsSafeChar(cleaned[i])
  {
    Substring(Sanitize(BaseName(name)), 0, MaxBaseLength)
  }

  /** The cleaned base is the first `min(30, |base|)` characters of the base,
      each replaced by `_` when outside the safe class. */
  lemma CleanedNameSpec(name: string)
    ensures |CleanedName(name)| == Min(MaxBaseLength, |BaseName(name)|)
    ensures forall i :: 0 <= i < |CleanedName(name)| ==>
              IsSafeChar(CleanedName(name)[i])
              && CleanedName(name)[i] == (if IsSafeChar(BaseName(name)[i]) then BaseName(name)[i] else '_')
  {
    var s := Sanitize(BaseName(name));
    if |s| <= MaxBaseLength {
      assert Substring(s, 0, MaxBaseLength) == s[0..|s|];
    } else {
      assert Substring(s, 0, MaxBaseLength) == s[0..MaxBaseLength];
    }
  }

  /** The generated upload name. */
  function GenerateUniqueFilename(name: string, isoNow: string, random36: string): (r: string)
    ensures EndsWith(r, Extension(name))
  {
    var ext := Extension(name);
    var r := CleanedName(name) + "_" + StripTimestamp(isoNow) + "_" + Substring(random36, 2, 8) + ext;
    assert r[|r| - |ext|..] == ext;
    r
  }

  /** The generated name is the cleaned base, `_`, the timestamp without
      separators, `_`, at most six random characters, and the original
      extension. */
  lemma GeneratedShape(name: string, isoNow: string, random36: string)
    ensures var r := GenerateUniqueFilename(name, isoNow, random36);
            var ts := StripTimestamp(isoNow);
            var rnd := Substring(random36, 2, 8);
            && r == CleanedName(name) + "_" + ts + "_" + rnd + Extension(name)
            && |rnd| <= 6
            && (|random36| >= 8 ==> rnd == random36[2..8])
            && |r| <= MaxBaseLength + |isoNow| + 8 + |Extension(name)|
  {
    CleanedNameSpec(name);
  }
}
