/** The video uploader's own filename generator: the millisecond clock in
    decimal, `-`, six random base-36 characters, `.`, and the text after the
    original name's last `.` (`split('.').pop()`). The clock value and the
    random string are parameters. */
module VideoUploaderNaming {
  import opened Common

  /** `name.split('.').pop()`: the text after the last `.`, or the whole name
      when it has no `.`. */
  function AfterLastDot(name: string): (ext: string)
    ensures forall j :: 0 <= j < |ext| ==> ext[j] != '.'
    ensures LastIndexOf(name, '.') < 0 ==> ext == name
    ensures EndsWith(name, ext)
  {
    name[LastIndexOf(name, '.') + 1..]
  }

  function DigitChar(d: nat): (c: char)
    requires d < 10
    ensures '0' <= c <= '9'
  {
    ['0', '1', '2', '3', '4', '5', '6', '7', '8', '9'][d]
  }

  function DigitValue(c: char): nat {
    if '0' <= c <= '9' then (c as int - '0' as int) as nat else 0
  }

  /** The decimal rendering of the clock value. */
  function NatToDecimal(n: nat): (s: string)
    ensures |s| >= 1
    ensures forall j :: 0 <= j < |s| ==> '0' <= s[j] <= '9'
  {
    if n < 10 then [DigitChar(n)] else NatToDecimal(n / 10) + [DigitChar(n % 10)]
  }

  /** The value of a string of decimal digits. */
  function DecimalValue(s: string): nat {
    if s == [] then 0 else DecimalValue(s[..|s| - 1]) * 10 + DigitValue(s[|s| - 1])
  }

  /** Reading the rendered digits back gives the clock value. */
  lemma {:induction false} DecimalRoundTrip(n: nat)
    ensures DecimalValue(NatToDecimal(n)) == n
  {
    var s := NatToDecimal(n);
    if n < 10 {
      assert s[..|s| - 1] == [];
      assert DigitValue(DigitChar(n)) == n;
    } else {
      DecimalRoundTrip(n / 10);
      assert s[..|s| - 1] == NatToDecimal(n / 10);
      assert DigitValue(DigitChar(n % 10)) == n % 10;
    }
  }

  function GenerateUniqueFilename(name: string, now: nat, random36: string): (r: string)
    ensures EndsWith(r, "." + AfterLastDot(name))
  {
    var prefix := NatToDecimal(now) + "-" + Substring(random36, 2, 8);
    var tail := "." + AfterLastDot(name);
    assert (prefix + tail)[|prefix|..] == tail;
    prefix + tail
  }

  /** Whatever precedes it, a `.` followed by dot-free text makes that text
      the part after the last `.`. */
  lemma AfterLastDotAppend(prefix: string, ext: string)
    requires forall j :: 0 <= j < |ext| ==> ext[j] != '.'
    ensures AfterLastDot(prefix + ("." + ext)) == ext
  {
    var r := prefix + ("." + ext);
    var dot := |prefix|;
    assert r[dot] == '.';
    forall j | dot < j < |r|
      ensures r[j] != '.'
    {
      assert r[j] == ext[j - dot - 1];
    }
    LastIndexOfIs(r, '.', dot);
    assert r[dot + 1..] == ext;
  }

  /** The generated name's text after its last `.` is the original name's:
      the extension survives, and a name without `.` contributes all of
      itself. */
  lemma GeneratedKeepsExtension(name: string, now: nat, random36: string)
    ensures AfterLastDot(GenerateUniqueFilename(name, now, random36)) == AfterLastDot(name)
  {
    var prefix := NatToDecimal(now) + "-" + Substring(random36, 2, 8);
    AfterLastDotAppend(prefix, AfterLastDot(name));
  }

  /** The generated name starts with the clock value in decimal, which reads
      back as that value, followed by `-`. */
  lemma GeneratedClockPrefix(name: string, now: nat, random36: string)
    ensures var r := GenerateUniqueFilename(name, now, random36);
            var d := NatToDecimal(now);
            |d| < |r| && r[..|d|] == d && DecimalValue(r[..|d|]) == now && r[|d|] == '-'
  {
    var d := NatToDecimal(now);
    var x := Substring(random36, 2, 8);
    var tail := "." + AfterLastDot(name);
    assert GenerateUniqueFilename(name, now, random36) == d + "-" + x + tail;
    SeparatorAfter(d, "-", x, tail);
    DecimalRoundTrip(now);
  }

  lemma SeparatorAfter(d: string, sep: string, x: string, tail: string)
    requires sep == "-"
    ensures var r := d + sep + x + tail;
            |d| < |r| && r[..|d|] == d && r[|d|] == '-'
  {
    var r := d + sep + x + tail;
    assert r == d + (sep + x + tail);
  }

  /** A name ending in `.` has an empty extension, so the result ends in `.`. */
  lemma TrailingDot(name: string, now: nat, random36: string)
    requires |name| >= 1 && name[|name| - 1] == '.'
    ensures AfterLastDot(name) == ""
    ensures var r := GenerateUniqueFilename(name, now, random36); r[|r| - 1] == '.'
  {
  }

  /** The last occurrence is the index that holds `c` with no `c` after it. */
  lemma LastIndexOfIs(s: string, c: char, k: nat)
    requires k < |s| && s[k] == c
    requires forall j :: k < j < |s| ==> s[j] != c
    ensures LastIndexOf(s, c) == k
  {
  }
}
