/** The name under which item `i` of a playlist is saved:
    a three-digit zero-padded index, an underscore, the sanitised title and
    the `.mp4` extension (playlist_downloader_phase2.py line 182). Playback
    finds "the next video" by sorting the folder listing, so the point of the
    padded prefix is that name order equals download order. */
module FileNames {
  import opened Text
  import opened Lexical

  /** Titles are cut to this many characters before they are stripped. */
  const TitleLimit: nat := 40

  /** Width of the zero-padded index. */
  const IndexWidth: nat := 3

  predicate IsDigit(c: char)
  {
    '0' <= c <= '9'
  }

  predicate AllDigits(s: string)
  {
    forall k :: 0 <= k < |s| ==> IsDigit(s[k])
  }

  function DigitChar(d: nat): (c: char)
    requires d < 10
    ensures IsDigit(c)
  {
    (48 + d) as char
  }

  /** The number a string of decimal digits denotes. */
  function ValueOf(s: string): nat
    requires AllDigits(s)
  {
    if |s| == 0 then 0 else 10 * ValueOf(s[..|s| - 1]) + (s[|s| - 1] as int - 48)
  }

  /** `str(n)` for a natural number. */
  function Decimal(n: nat): (r: string)
    ensures 1 <= |r| && AllDigits(r)
    ensures n < 10 ==> |r| == 1
    ensures n < 100 ==> |r| <= 2
    ensures n < 1000 ==> |r| <= 3
  {
    if n < 10 then [DigitChar(n)] else Decimal(n / 10) + [DigitChar(n % 10)]
  }

  function Zeros(k: nat): (r: string)
    ensures |r| == k && forall m :: 0 <= m < k ==> r[m] == '0'
  {
    if k == 0 then [] else ['0'] + Zeros(k - 1)
  }

  /** `str(n)` has no leading zero: only the number 0 is written with a
      first digit `0`. */
  lemma {:induction false} DecimalNoLeadingZero(n: nat)
    ensures |Decimal(n)| > 1 ==> Decimal(n)[0] != '0'
  {
    if n >= 10 {
      var d := Decimal(n / 10);
      assert Decimal(n) == d + [DigitChar(n % 10)];
      if |d| > 1 {
        DecimalNoLeadingZero(n / 10);
      } else {
        assert d == [DigitChar(n / 10)];
      }
    }
  }

  /** `f"{i:03d}"`: `str(i)` padded on the left with zeros to three
      characters; indices of four digits or more are not cut. */
  function PadIndex(i: nat): (r: string)
    ensures AllDigits(r)
    ensures i < 1000 ==> |r| == IndexWidth
    ensures |r| > IndexWidth ==> r[0] != '0'
  {
    var d := Decimal(i);
    DecimalNoLeadingZero(i);
    if |d| < IndexWidth then Zeros(IndexWidth - |d|) + d else d
  }

  /** `title[:40].strip().replace(' ', '_')` */
  function SanitizeTitle(title: string): (r: string)
    ensures |r| <= TitleLimit
    ensures ' ' !in r
    ensures |r| > 0 ==> !IsSpace(r[0]) && !IsSpace(r[|r| - 1])
  {
    var stripped := Strip(Take(title, TitleLimit));
    var r := ReplaceSpaces(stripped);
    assert forall k :: 0 <= k < |r| ==> r[k] != ' ';
    r
  }

  /** What the sanitised title contains: with `c` the first `TitleLimit`
      characters of the title and `lo` its leading whitespace, the result is
      `c[lo..lo + |r|]` with every blank turned into an underscore, that slice
      ends in a non-whitespace character and all that follows it in `c` is
      whitespace, and it is empty exactly when `c` is nothing but
      whitespace. */
  lemma SanitizeTitleContent(title: string)
    ensures var c := Take(title, TitleLimit);
            var lo := LeadingSpaces(c);
            var r := SanitizeTitle(title);
            && lo + |r| <= |c|
            && (forall k :: 0 <= k < |r| ==> r[k] == if c[lo + k] == ' ' then '_' else c[lo + k])
            && AllSpace(c[lo + |r|..])
            && (|r| > 0 ==> !IsSpace(c[lo + |r| - 1]))
            && (r == [] <==> AllSpace(c))
  {
  }

  /** `f"{i:03d}_{title[:40].strip().replace(' ', '_')}.mp4"` */
  function Filename(i: nat, title: string): string
  {
    PadIndex(i) + ("_" + (SanitizeTitle(title) + ".mp4"))
  }

  // ---------------------------------------------------------------------
  // The index prefix reads back as the index

  lemma {:induction false} DecimalValue(n: nat)
    ensures ValueOf(Decimal(n)) == n
  {
    if n >= 10 {
      var d := Decimal(n);
      assert d[..|d| - 1] == Decimal(n / 10);
      DecimalValue(n / 10);
    }
  }

  /** Leading zeros do not change the value of a digit string. */
  lemma {:induction false} ZerosValue(k: nat, d: string)
    requires AllDigits(d)
    ensures AllDigits(Zeros(k) + d) && ValueOf(Zeros(k) + d) == ValueOf(d)
  {
    var s := Zeros(k) + d;
    if |d| == 0 {
      assert s == Zeros(k);
      if k > 0 {
        assert s[..|s| - 1] == Zeros(k - 1);
        ZerosValue(k - 1, d);
        assert Zeros(k - 1) + d == Zeros(k - 1);
      }
    } else {
      assert s[..|s| - 1] == Zeros(k) + d[..|d| - 1];
      ZerosValue(k, d[..|d| - 1]);
    }
  }

  /** Round trip: the padded index denotes the index, for every index. */
  lemma PadIndexValue(i: nat)
    ensures ValueOf(PadIndex(i)) == i
  {
    var d := Decimal(i);
    DecimalValue(i);
    if |d| < IndexWidth {
      ZerosValue(IndexWidth - |d|, d);
    }
  }

  // ---------------------------------------------------------------------
  // Shape of a built name

  /** The sanitised title of a sanitised title is itself: sanitising is
      idempotent. */
  lemma SanitizeTitleIdempotent(title: string)
    ensures SanitizeTitle(SanitizeTitle(title)) == SanitizeTitle(title)
  {
    var r := SanitizeTitle(title);
    StripUnchanged(r);
    ReplaceSpacesUnchanged(r);
  }

  /** For an index below 1000 the name is three digits denoting the index,
      an underscore, the sanitised title of at most 40 characters and no
      blank, and the `.mp4` extension. */
  lemma FilenameShape(i: nat, title: string)
    requires i < 1000
    ensures |Filename(i, title)| == 8 + |SanitizeTitle(title)|
    ensures AllDigits(Filename(i, title)[..3]) && ValueOf(Filename(i, title)[..3]) == i
    ensures Filename(i, title)[3] == '_'
    ensures Filename(i, title)[4..|Filename(i, title)| - 4] == SanitizeTitle(title)
    ensures HasSuffix(Filename(i, title), ".mp4")
  {
    var p := PadIndex(i);
    var t := SanitizeTitle(title);
    var rest := "_" + (t + ".mp4");
    var name := p + rest;
    assert name == Filename(i, title);
    assert name[..3] == p;
    PadIndexValue(i);
    assert name[3] == rest[0] == '_';
    assert name[4..] == rest[1..] == t + ".mp4";
    assert name[4..|name| - 4] == name[4..][..|t|] == t;
    FilenameIsVideo(i, title);
  }

  /** Every built name ends in `.mp4`, whatever the index. */
  lemma FilenameIsVideo(i: nat, title: string)
    ensures HasSuffix(Filename(i, title), ".mp4")
  {
    var t := SanitizeTitle(title) + ".mp4";
    SuffixOfConcat(SanitizeTitle(title), ".mp4", ".mp4");
    SuffixOfConcat("_", t, ".mp4");
    SuffixOfConcat(PadIndex(i), "_" + t, ".mp4");
  }

  // ---------------------------------------------------------------------
  // Name order is index order below 1000

  lemma PadIndexDigits(i: nat)
    requires i < 1000
    ensures PadIndex(i) == [DigitChar(i / 100), DigitChar(i / 10 % 10), DigitChar(i % 10)]
  {
    if i >= 100 {
      assert Decimal(i) == Decimal(i / 10) + [DigitChar(i % 10)];
      assert Decimal(i / 10) == Decimal(i / 10 / 10) + [DigitChar(i / 10 % 10)];
      assert i / 10 / 10 == i / 100;
    } else if i >= 10 {
      assert Decimal(i) == Decimal(i / 10) + [DigitChar(i % 10)];
    }
  }

  /** Three decimal digits of an index below 1000, most significant first. */
  lemma ThreeDigits(i: nat)
    requires i < 1000
    ensures i / 100 < 10 && i / 10 % 10 < 10 && i % 10 < 10
    ensures i == 100 * (i / 100) + 10 * (i / 10 % 10) + i % 10
  {
    var q := i / 10;
    assert i == 10 * q + i % 10;
    assert q == 10 * (q / 10) + q % 10;
    assert q / 10 == i / 100;
  }

  lemma PadIndexOrder(i: nat, j: nat)
    requires i < j < 1000
    ensures Below(PadIndex(i), PadIndex(j))
  {
    PadIndexDigits(i);
    PadIndexDigits(j);
    ThreeDigits(i);
    ThreeDigits(j);
    var a, b := PadIndex(i), PadIndex(j);
    if i / 100 == j / 100 {
      assert a[0] == b[0];
      if i / 10 % 10 == j / 10 % 10 {
        assert a[1..][0] == b[1..][0];
        assert i % 10 < j % 10;
        assert a[1..][1..] == [DigitChar(i % 10)] && b[1..][1..] == [DigitChar(j % 10)];
      } else {
        assert i / 10 % 10 < j / 10 % 10;
        assert a[1..][0] < b[1..][0];
      }
    } else {
      assert i / 100 < j / 100;
    }
  }

  /** For indices below 1000 the earlier item's name sorts first, whatever
      the two titles: sorting a folder of built names reproduces download
      order. */
  lemma FilenameOrder(i: nat, j: nat, t1: string, t2: string)
    requires i < j < 1000
    ensures Below(Filename(i, t1), Filename(j, t2))
  {
    PadIndexOrder(i, j);
    BelowExtend(PadIndex(i), PadIndex(j), "_" + (SanitizeTitle(t1) + ".mp4"), "_" + (SanitizeTitle(t2) + ".mp4"));
  }

  lemma PadIndexOfThousand()
    ensures PadIndex(1000) == "1000"
  {
    assert Decimal(10) == [DigitChar(1), DigitChar(0)];
    assert Decimal(100) == Decimal(10) + [DigitChar(0)];
    assert Decimal(1000) == Decimal(100) + [DigitChar(0)];
  }

  /** Whatever follows them, the padded index 1000 sorts before the padded
      index 101. */
  lemma ThousandBeforeHundredOne(x: string, y: string)
    ensures Below(PadIndex(1000) + x, PadIndex(101) + y)
  {
    PadIndexOfThousand();
    PadIndexDigits(101);
    assert PadIndex(101) == "101";
    assert "1000" + x == "100" + ("0" + x);
    assert Below("100", "101");
    BelowExtend("100", "101", "0" + x, y);
  }

  /** The bound is needed: item 1000 is saved as `1000_...`, which sorts
      before item 101's `101_...`. */
  lemma FilenameOrderBreaksAtFourDigits(t1: string, t2: string)
    ensures Below(Filename(1000, t1), Filename(101, t2))
  {
    ThousandBeforeHundredOne("_" + (SanitizeTitle(t1) + ".mp4"), "_" + (SanitizeTitle(t2) + ".mp4"));
  }
}
