/** The two pure helpers of the playlist page script: formatDuration, which
    shows a song's length in seconds as minutes:seconds, and the row number
    of a song's line in the table. Numbers print as JavaScript prints
    integers: decimal digits, a minus sign for negatives. */
module PlaylistPage {
  import opened Basics
  import opened Schema
  import opened Positions
  import opened PlaylistRoutes

  predicate IsDigit(c: char) {
    '0' <= c <= '9'
  }

  predicate AllDigits(s: string) {
    forall i :: 0 <= i < |s| ==> IsDigit(s[i])
  }

  function DigitChar(d: nat): (c: char)
    requires d < 10
    ensures IsDigit(c)
  {
    ['0', '1', '2', '3', '4', '5', '6', '7', '8', '9'][d]
  }

  function DigitValue(c: char): (d: nat)
    requires IsDigit(c)
    ensures d < 10
  {
    c as int - '0' as int
  }

  lemma DigitRoundTrip(d: nat)
    requires d < 10
    ensures DigitValue(DigitChar(d)) == d
  {
  }

  /** The decimal digits of `n`, without leading zeros ("0" for zero). */
  function NatToString(n: nat): (s: string)
    ensures |s| >= 1 && AllDigits(s)
    ensures n < 10 <==> |s| == 1
  {
    if n < 10 then [DigitChar(n)]
    else NatToString(n / 10) + [DigitChar(n % 10)]
  }

  /** The value of a string of decimal digits. */
  function ParseNat(s: string): nat
    requires AllDigits(s)
  {
    if s == [] then 0
    else ParseNat(s[..|s| - 1]) * 10 + DigitValue(s[|s| - 1])
  }

  /** Printing then reading back gives the number. */
  lemma {:induction false} ParseNatToString(n: nat)
    ensures ParseNat(NatToString(n)) == n
  {
    var s := NatToString(n);
    if n < 10 {
      DigitRoundTrip(n);
    } else {
      ParseNatToString(n / 10);
      assert s[..|s| - 1] == NatToString(n / 10);
      DigitRoundTrip(n % 10);
    }
  }

  /** Number.prototype.toString() on an integer. */
  function IntToString(i: int): (s: string)
    ensures i >= 0 ==> s == NatToString(i)
    ensures i < 0 ==> |s| >= 2 && s[0] == '-' && s[1..] == NatToString(-i)
  {
    if i < 0 then "-" + NatToString(-i) else NatToString(i)
  }

  /** String.prototype.padStart(width, c). */
  function PadStart(s: string, width: nat, c: char): (r: string)
    ensures |r| == if |s| >= width then |s| else width
    ensures r[|r| - |s|..] == s
    ensures forall i :: 0 <= i < |r| - |s| ==> r[i] == c
    decreases width - |s|
  {
    if |s| >= width then s else PadStart([c] + s, width, c)
  }

  /** JavaScript's `%`: the remainder takes the sign of the dividend. */
  function JsRem(a: int, b: int): (r: int)
    requires b > 0
    ensures a >= 0 ==> r == a % b && 0 <= r < b
    ensures a < 0 ==> -b < r <= 0
    ensures a == b * (if a >= 0 then a / b else -((-a) / b)) + r
  {
    if a >= 0 then a % b else -((-a) % b)
  }

  /** formatDuration(seconds): "0:00" for a falsy value (missing, null or
      0); otherwise Math.floor(seconds / 60), a colon, and seconds % 60
      padded with zeros to two characters. */
  function FormatDuration(seconds: Option<int>): (r: string)
    ensures !Truthy(seconds) ==> r == "0:00"
  {
    if !Truthy(seconds) then "0:00"
    else
      var s := seconds.value;
      // Math.floor(s / 60): Dafny's division rounds down for a positive divisor.
      IntToString(s / 60) + ":" + PadStart(IntToString(JsRem(s, 60)), 2, '0')
  }

  lemma ParseTwo(a: char, b: char)
    requires IsDigit(a) && IsDigit(b)
    ensures ParseNat([a, b]) == DigitValue(a) * 10 + DigitValue(b)
  {
    assert [a, b][..1] == [a];
    assert [a][..0] == [];
    assert ParseNat([a]) == DigitValue(a);
  }

  /** A seconds count below 60, printed and padded: two digits that read
      back as the count. */
  lemma SecondsField(sec: nat)
    requires sec < 60
    ensures var p := PadStart(NatToString(sec), 2, '0');
      |p| == 2 && AllDigits(p) && ParseNat(p) == sec
  {
    var p := PadStart(NatToString(sec), 2, '0');
    if sec < 10 {
      var d := DigitChar(sec);
      assert NatToString(sec) == [d];
      assert p == PadStart(['0', d], 2, '0') == ['0', d];
      ParseTwo('0', d);
      DigitRoundTrip(sec);
    } else {
      var hi, lo := DigitChar(sec / 10), DigitChar(sec % 10);
      assert NatToString(sec / 10) == [hi];
      assert p == NatToString(sec) == [hi, lo];
      ParseTwo(hi, lo);
      DigitRoundTrip(sec / 10);
      DigitRoundTrip(sec % 10);
    }
  }

  /** For a positive length the text is the minutes field, a colon and
      the seconds field: the minutes field is floor(s / 60), the seconds
      field has exactly two digits worth less than 60, and reading both
      back gives minutes * 60 + seconds == s. */
  lemma FormatDurationRoundTrip(s: int)
    requires s > 0
    ensures var mins, secs := NatToString(s / 60), PadStart(NatToString(s % 60), 2, '0');
      && FormatDuration(Some(s)) == mins + ":" + secs
      && |secs| == 2 && AllDigits(secs) && ParseNat(secs) < 60
      && ParseNat(mins) * 60 + ParseNat(secs) == s
  {
    FormatPositive(s);
    SecondsField(s % 60);
    ParseNatToString(s / 60);
  }

  /** A positive length takes the second branch, with a non-negative
      minutes count and a remainder below 60 printed without a sign. */
  lemma FormatPositive(s: int)
    requires s > 0
    ensures 0 <= s % 60 < 60 && s / 60 * 60 + s % 60 == s
    ensures FormatDuration(Some(s)) == NatToString(s / 60) + ":" + PadStart(NatToString(s % 60), 2, '0')
  {
    var m, sec := s / 60, s % 60;
    assert JsRem(s, 60) == sec;
    assert IntToString(m) == NatToString(m) && IntToString(sec) == NatToString(sec);
  }

  /** The number in the first cell of a song's row: `index + 1`. */
  function RowLabel(index: nat): (r: string)
    ensures AllDigits(r) && ParseNat(r) == index + 1
  {
    ParseNatToString(index + 1);
    NatToString(index + 1)
  }

  /** On a dense playlist, the row number the page prints for the k-th
      song of the detail is that song's stored position. */
  lemma RowLabelIsPosition(t: Tables, me: Id, pid: Id, k: nat)
    requires Dense(t.entries, pid)
    requires forall e :: e in t.entries && e.playlist == pid ==> SongById(t.songs, e.song).Some?
    requires PlaylistDetail(t, me, pid).Some? && k < |PlaylistDetail(t, me, pid).value.songs|
    ensures ParseNat(RowLabel(k)) == PlaylistDetail(t, me, pid).value.songs[k].position
  {
    DetailOfDense(t, me, pid);
  }
}
