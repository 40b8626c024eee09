/**
 * The hover colour of the rounded canvas buttons: a `#rrggbb` colour is read
 * as three hexadecimal bytes, a fixed amount is taken off each byte with a
 * floor of zero, and the result is written back as `#` plus six lower-case
 * hexadecimal digits (Python's `'{:02x}'` format).
 */
module HexColor {

  /** The amount `darken` / `dk` take off in the day-3 dialogs script. */
  const DialogAmount: nat := 25
  /** The amount `RoundedButton._darken` and the day-2 `darken` take off. */
  const ButtonAmount: nat := 20

  predicate IsHexDigit(c: char) {
    ('0' <= c <= '9') || ('a' <= c <= 'f') || ('A' <= c <= 'F')
  }

  predicate IsLowerHexDigit(c: char) {
    ('0' <= c <= '9') || ('a' <= c <= 'f')
  }

  /** A string `int(h[1:3], 16)` and its two siblings can read: `#` and six hex digits. */
  predicate WellFormed(h: string) {
    |h| == 7 && h[0] == '#' && forall i :: 1 <= i < 7 ==> IsHexDigit(h[i])
  }

  /** What the formatter produces: `#` and six lower-case hex digits. */
  predicate Canonical(h: string) {
    |h| == 7 && h[0] == '#' && forall i :: 1 <= i < 7 ==> IsLowerHexDigit(h[i])
  }

  /** The value of one hexadecimal digit, either case, as `int(_, 16)` reads it. */
  function DigitValue(c: char): (v: nat)
    requires IsHexDigit(c)
    ensures v < 16
  {
    if '0' <= c <= '9' then c as int - '0' as int
    else if 'a' <= c <= 'f' then c as int - 'a' as int + 10
    else c as int - 'A' as int + 10
  }

  /** The lower-case digit for a value below 16. */
  function DigitChar(v: nat): (c: char)
    requires v < 16
    ensures IsLowerHexDigit(c)
  {
    if v < 10 then ('0' as int + v) as char else ('a' as int + v - 10) as char
  }

  /** `int(s, 16)` for a two-digit string. */
  function ParseByte(hi: char, lo: char): (v: nat)
    requires IsHexDigit(hi) && IsHexDigit(lo)
    ensures v < 256
  {
    16 * DigitValue(hi) + DigitValue(lo)
  }

  /** `'{:02x}'.format(v)` for `0 <= v < 256`. */
  function FormatByte(v: nat): (s: string)
    requires v < 256
    ensures |s| == 2 && IsLowerHexDigit(s[0]) && IsLowerHexDigit(s[1])
  {
    [DigitChar(v / 16), DigitChar(v % 16)]
  }

  /** Channel `k` (0 red, 1 green, 2 blue) of a well-formed colour: `int(h[1+2k:3+2k], 16)`. */
  function Channel(h: string, k: nat): (v: nat)
    requires WellFormed(h) && k < 3
    ensures v < 256
  {
    ParseByte(h[1 + 2 * k], h[2 + 2 * k])
  }

  /** `max(0, v - amount)` */
  function Floored(v: nat, amount: nat): nat {
    if v < amount then 0 else v - amount
  }

  /** `'#{:02x}{:02x}{:02x}'.format(r, g, b)` */
  function Format(r: nat, g: nat, b: nat): (h: string)
    requires r < 256 && g < 256 && b < 256
    ensures Canonical(h)
  {
    "#" + FormatByte(r) + FormatByte(g) + FormatByte(b)
  }

  /**
   * `darken(h, a)`, `dk(h, a)` and `_darken(hex_color)`: every channel
   * lowered by `amount`, never below zero, written in lower case.
   */
  function Darken(h: string, amount: nat): (r: string)
    requires WellFormed(h)
    ensures Canonical(r) && WellFormed(r)
  {
    Format(Floored(Channel(h, 0), amount), Floored(Channel(h, 1), amount), Floored(Channel(h, 2), amount))
  }

  /** Reading back a formatted byte gives the byte. */
  lemma ParseFormatByte(v: nat)
    requires v < 256
    ensures ParseByte(FormatByte(v)[0], FormatByte(v)[1]) == v
  {
    var s := FormatByte(v);
    assert DigitValue(s[0]) == v / 16;
    assert DigitValue(s[1]) == v % 16;
  }

  /** Reading back the channels of a formatted colour gives the three bytes. */
  lemma ChannelsOfFormat(r: nat, g: nat, b: nat)
    requires r < 256 && g < 256 && b < 256
    ensures WellFormed(Format(r, g, b))
    ensures Channel(Format(r, g, b), 0) == r
    ensures Channel(Format(r, g, b), 1) == g
    ensures Channel(Format(r, g, b), 2) == b
  {
    var h := Format(r, g, b);
    assert h[1..3] == FormatByte(r) && h[3..5] == FormatByte(g) && h[5..7] == FormatByte(b);
    ParseFormatByte(r);
    ParseFormatByte(g);
    ParseFormatByte(b);
  }

  /** Each output channel is `max(0, channel - amount)` of the input channel. */
  lemma DarkenChannels(h: string, amount: nat)
    requires WellFormed(h)
    ensures forall k :: 0 <= k < 3 ==>
      Channel(Darken(h, amount), k) == (if Channel(h, k) <= amount then 0 else Channel(h, k) - amount)
  {
    ChannelsOfFormat(Floored(Channel(h, 0), amount), Floored(Channel(h, 1), amount), Floored(Channel(h, 2), amount));
  }

  /** Darkening never raises a channel, and a channel at or below the amount becomes zero. */
  lemma DarkenNeverBrightens(h: string, amount: nat)
    requires WellFormed(h)
    ensures forall k :: 0 <= k < 3 ==> Channel(Darken(h, amount), k) <= Channel(h, k)
    ensures forall k :: 0 <= k < 3 && Channel(h, k) <= amount ==> Channel(Darken(h, amount), k) == 0
    ensures forall k :: 0 <= k < 3 && Channel(h, k) > 0 && amount > 0 ==> Channel(Darken(h, amount), k) < Channel(h, k)
  {
    DarkenChannels(h, amount);
  }

  /** Darkening twice is darkening once by the sum of the amounts. */
  lemma DarkenTwice(h: string, a: nat, b: nat)
    requires WellFormed(h)
    ensures Darken(Darken(h, a), b) == Darken(h, a + b)
  {
    DarkenChannels(h, a);
  }

  /** A colour with some channel above zero visibly changes on hover: its darkened form is a different colour. */
  lemma HoverVisible(h: string, amount: nat, k: nat)
    requires WellFormed(h) && amount > 0 && k < 3 && Channel(h, k) > 0
    ensures Darken(h, amount) != h
  {
    DarkenChannels(h, amount);
    assert Channel(Darken(h, amount), k) < Channel(h, k);
  }

  /** Formatting the value of two lower-case digits gives the same two digits. */
  lemma FormatParseByte(hi: char, lo: char)
    requires IsLowerHexDigit(hi) && IsLowerHexDigit(lo)
    ensures FormatByte(ParseByte(hi, lo)) == [hi, lo]
  {
    var x, y := DigitValue(hi), DigitValue(lo);
    assert (16 * x + y) / 16 == x && (16 * x + y) % 16 == y;
  }

  /** With amount zero, darkening only rewrites the digits in lower case; a canonical colour is left as it is. */
  lemma DarkenZeroKeepsCanonical(h: string)
    requires Canonical(h)
    ensures WellFormed(h) && Darken(h, 0) == h
  {
    FormatParseByte(h[1], h[2]);
    FormatParseByte(h[3], h[4]);
    FormatParseByte(h[5], h[6]);
    var r := Darken(h, 0);
    assert r == "#" + [h[1], h[2]] + [h[3], h[4]] + [h[5], h[6]];
  }

  /**
   * The two button colours: the accent `#4f7ef8` hovers as `#3665df` in the
   * dialogs script and as `#3b6ae4` elsewhere; the green `#2ec87a` as
   * `#15af61` and `#1ab466`.
   */
  lemma DialogHoverColours()
    ensures Darken("#4f7ef8", DialogAmount) == "#3665df"
    ensures Darken("#2ec87a", DialogAmount) == "#15af61"
    ensures Darken("#4f7ef8", ButtonAmount) == "#3b6ae4"
    ensures Darken("#2ec87a", ButtonAmount) == "#1ab466"
  {
    assert Channel("#4f7ef8", 0) == 79 && Channel("#4f7ef8", 1) == 126 && Channel("#4f7ef8", 2) == 248;
    assert Channel("#2ec87a", 0) == 46 && Channel("#2ec87a", 1) == 200 && Channel("#2ec87a", 2) == 122;
    assert FormatByte(54) == "36" && FormatByte(101) == "65" && FormatByte(223) == "df";
    assert FormatByte(21) == "15" && FormatByte(175) == "af" && FormatByte(97) == "61";
    assert FormatByte(59) == "3b" && FormatByte(106) == "6a" && FormatByte(228) == "e4";
    assert FormatByte(26) == "1a" && FormatByte(180) == "b4" && FormatByte(102) == "66";
  }
}
