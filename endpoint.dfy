/** The endpoint checks of the connection tool: `validate_ip`, `validate_port`
    and the verdict of `validate_input`, all built on Python's `int()`. */
module Endpoint {
  import opened Wrappers
  import opened PyStr

  predicate IsDigit(c: char) {
    '0' <= c <= '9'
  }

  function DigitValue(c: char): nat {
    if IsDigit(c) then c as int - '0' as int else 0
  }

  /** The digits of a base-10 literal as `int()` reads them: ASCII digits, with
      single underscores allowed between two digits. */
  predicate IsDigitRun(t: string) {
    && |t| > 0 && IsDigit(t[0]) && IsDigit(t[|t| - 1])
    && (forall i :: 0 <= i < |t| ==> IsDigit(t[i]) || t[i] == '_')
    && NoDoubleUnderscore(t)
  }

  predicate NoDoubleUnderscore(t: string) {
    |t| < 2 || ((t[0] != '_' || t[1] != '_') && NoDoubleUnderscore(t[1..]))
  }

  /** The number the digits of `t` denote, underscores ignored. */
  function DigitsValue(t: string): nat {
    if t == [] then 0
    else if t[|t| - 1] == '_' then DigitsValue(t[..|t| - 1])
    else DigitsValue(t[..|t| - 1]) * 10 + DigitValue(t[|t| - 1])
  }

  /** The information separators U+001C to U+001F: whitespace to
      `str.isspace()`, and so to `strip()`, but not to `int()`. */
  predicate IsSeparator(c: char) {
    '\U{1C}' <= c <= '\U{1F}'
  }

  /** The whitespace `int()` skips around a number: the ASCII space, tab,
      line feed, vertical tab, form feed and carriage return, and every
      non-ASCII character `str.isspace()` accepts. */
  predicate IntSpace(c: char) {
    IsSpace(c) && !IsSeparator(c)
  }

  predicate HasSeparator(s: string) {
    exists k :: 0 <= k < |s| && IsSeparator(s[k])
  }

  /** Python's `int(s)` in base 10: `Some(n)` where it returns `n` and `None`
      where it raises `ValueError`. Surrounding whitespace is ignored, a sign
      may come first, and leading zeros are allowed. A separator is neither
      skipped nor a digit, so one anywhere in `s` makes `int()` raise; without
      one, `int()` skips exactly what `strip()` removes. */
  function ParseInt(s: string): Option<int> {
    if HasSeparator(s) then None else ParseStripped(Strip(s))
  }

  /** `int()` on a string whose surrounding whitespace is already gone. */
  function ParseStripped(t: string): Option<int> {
    if |t| > 0 && (t[0] == '+' || t[0] == '-') then
      if IsDigitRun(t[1..]) then
        var magnitude: int := DigitsValue(t[1..]);
        Some(if t[0] == '-' then -magnitude else magnitude)
      else None
    else if IsDigitRun(t) then Some(DigitsValue(t))
    else None
  }

  /** Python's `str(n)` for a natural number: its decimal digits, no leading zero. */
  function DecimalString(n: nat): (s: string)
    ensures |s| > 0 && forall i :: 0 <= i < |s| ==> IsDigit(s[i])
  {
    if n < 10 then [('0' as int + n) as char]
    else DecimalString(n / 10) + [('0' as int + n % 10) as char]
  }

  /** One dotted part is an octet: `int(part)` succeeds with a value in [0, 255]. */
  predicate IsOctet(part: string) {
    var v := ParseInt(part);
    v.Some? && 0 <= v.value <= 255
  }

  /** `all(0 <= int(part) <= 255 for part in parts)` under the `except
      ValueError: return False` of `validate_ip`: parts are tried left to right,
      the first one that does not parse or is out of range decides `false`. */
  function AllOctets(parts: seq<string>): bool {
    if parts == [] then true
    else match ParseInt(parts[0])
      case None => false
      case Some(v) => if 0 <= v <= 255 then AllOctets(parts[1..]) else false
  }

  /** `validate_ip`: a non-empty string with exactly four dot-separated parts,
      each an octet. The string is not stripped here; its callers strip it. */
  predicate ValidateIp(ip: string) {
    ip != [] && var parts := Split(ip, '.'); |parts| == 4 && AllOctets(parts)
  }

  /** `validate_port`: a non-empty string that `int()` reads as a value in [0, 65535]. */
  predicate ValidatePort(port: string) {
    port != [] && match ParseInt(port)
      case None => false
      case Some(n) => 0 <= n <= 65535
  }

  /** The verdict `validate_input` returns for the texts of the two entries. */
  predicate ValidateInput(ipText: string, portText: string) {
    ValidateIp(Strip(ipText)) && ValidatePort(Strip(portText))
  }

  // ---------------------------------------------------------------------------
  // What `int()` accepts

  /** A character `int()` can accept somewhere in its argument. */
  predicate NumeralChar(c: char) {
    IntSpace(c) || IsDigit(c) || c == '+' || c == '-' || c == '_'
  }

  /** What `int()` reads once the whitespace is stripped: an optional sign and a run of digits. */
  predicate SignedDigitRun(t: string) {
    IsDigitRun(t) || (|t| > 0 && (t[0] == '+' || t[0] == '-') && IsDigitRun(t[1..]))
  }

  lemma SignedDigitRunChars(t: string)
    requires SignedDigitRun(t)
    ensures forall k :: 0 <= k < |t| ==> NumeralChar(t[k])
  {
    if !IsDigitRun(t) {
      assert forall k :: 1 <= k < |t| ==> t[1..][k - 1] == t[k];
    }
  }

  /** A string `int()` accepts holds nothing but whitespace, a sign, digits
      and underscores; so in particular neither a dot nor a colon. */
  lemma ParsedChars(s: string)
    requires ParseInt(s).Some?
    ensures forall k :: 0 <= k < |s| ==> NumeralChar(s[k])
    ensures '.' !in s && ':' !in s
  {
    var t := Strip(s);
    StripSpec(s);
    assert SignedDigitRun(t);
    SignedDigitRunChars(t);
    var i, j :| StripsAt(s, t, i, j);
    forall k | 0 <= k < |s| ensures NumeralChar(s[k]) {
      assert !IsSeparator(s[k]);
      if i <= k < j {
        assert s[k] == t[k - i];
      }
    }
  }

  /** Every character of `s` is whitespace to `int()`. */
  ghost predicate AllIntSpace(s: string) {
    forall k :: 0 <= k < |s| ==> IntSpace(s[k])
  }

  /** `int()` ignores its own whitespace around its argument: this is why
      " 2" is a valid part of an address although the whole address is
      stripped only at its ends. */
  lemma ParseIgnoresSpace(ws1: string, t: string, ws2: string)
    requires AllIntSpace(ws1) && AllIntSpace(ws2)
    ensures ParseInt(ws1 + t + ws2) == ParseInt(t)
  {
    var s := ws1 + t + ws2;
    StripSurrounded(ws1, t, ws2);
    if HasSeparator(s) {
      var k :| 0 <= k < |s| && IsSeparator(s[k]);
      assert s[k] == t[k - |ws1|];
    }
    if HasSeparator(t) {
      var k :| 0 <= k < |t| && IsSeparator(t[k]);
      assert s[|ws1| + k] == t[k];
    }
  }

  /** A separator in the text makes `int()` raise, even at an end where
      `strip()` would have removed it. */
  lemma SeparatorRejected(ws: string, t: string)
    requires |ws| > 0 && forall k :: 0 <= k < |ws| ==> IsSeparator(ws[k])
    ensures ParseInt(ws + t) == None && ParseInt(t + ws) == None
  {
    assert (ws + t)[0] == ws[0];
    assert (t + ws)[|t|] == ws[0];
  }

  lemma {:induction false} DecimalValue(n: nat)
    ensures DigitsValue(DecimalString(n)) == n
  {
    var s := DecimalString(n);
    if n < 10 {
      assert s[..0] == [];
    } else {
      DecimalValue(n / 10);
      assert s[..|s| - 1] == DecimalString(n / 10);
    }
  }

  lemma {:induction false} DigitsOnlyRun(s: string)
    requires |s| > 0 && forall i :: 0 <= i < |s| ==> IsDigit(s[i])
    ensures IsDigitRun(s)
  {
    if |s| >= 2 {
      DigitsOnlyRun(s[1..]);
    }
  }

  /** `int(str(n)) == n`: the decimal rendering of a number parses back to it. */
  lemma ParseDecimal(n: nat)
    ensures ParseInt(DecimalString(n)) == Some(n)
  {
    var s := DecimalString(n);
    StripTight(s);
    assert IsDigitRun(s) by { DigitsOnlyRun(s); }
    DecimalValue(n);
  }

  /** `int()` takes a sign, so "-0" is zero and passes as an octet and as a port. */
  lemma MinusZero()
    ensures ParseInt("-0") == Some(0)
    ensures IsOctet("-0") && ValidatePort("-0")
  {
    var s := "-0";
    StripTight(s);
    assert s[1..] == "0";
    assert "0"[..0] == [];
  }

  /** `int()` takes a plus sign, and an underscore between two digits. */
  lemma SignAndUnderscore()
    ensures ParseInt("+1") == Some(1) && ParseInt("1_0") == Some(10)
  {
    StripTight("+1");
    StripTight("1_0");
    assert "+1"[1..] == "1";
    assert "1"[..0] == [];
    assert "1_0"[..2] == "1_";
    assert "1_"[..1] == "1";
  }

  // ---------------------------------------------------------------------------
  // validate_ip

  /** The left-to-right scan of `all(...)` agrees with "every part is an octet". */
  lemma {:induction false} AllOctetsIff(parts: seq<string>)
    ensures AllOctets(parts) <==> forall i :: 0 <= i < |parts| ==> IsOctet(parts[i])
  {
    if parts != [] {
      AllOctetsIff(parts[1..]);
      assert forall i :: 1 <= i < |parts| ==> parts[1..][i - 1] == parts[i];
    }
  }

  /** `validate_ip` holds exactly when the string is non-empty, splits on "."
      into four parts, and every part parses as an integer in [0, 255]. */
  lemma ValidateIpIff(ip: string)
    ensures ValidateIp(ip) <==>
      ip != [] && |Split(ip, '.')| == 4 &&
      forall i :: 0 <= i < 4 ==> IsOctet(Split(ip, '.')[i])
  {
    AllOctetsIff(Split(ip, '.'));
  }

  /** Four octets joined with dots make an address `validate_ip` accepts. */
  lemma ValidateJoinedOctets(p0: string, p1: string, p2: string, p3: string)
    requires IsOctet(p0) && IsOctet(p1) && IsOctet(p2) && IsOctet(p3)
    ensures ValidateIp(p0 + "." + p1 + "." + p2 + "." + p3)
  {
    var parts := [p0, p1, p2, p3];
    forall i | 0 <= i < 4 ensures '.' !in parts[i] {
      ParsedChars(parts[i]);
    }
    SplitJoin(parts, '.');
    AllOctetsIff(parts);
    JoinFour(parts, '.');
  }

  lemma DecimalOctet(n: nat)
    requires n <= 255
    ensures IsOctet(DecimalString(n))
  {
    ParseDecimal(n);
  }

  /** Every dotted quad of numbers in [0, 255], written in decimal, is accepted. */
  lemma ValidateDottedQuad(a: nat, b: nat, c: nat, d: nat)
    requires a <= 255 && b <= 255 && c <= 255 && d <= 255
    ensures ValidateIp(DecimalString(a) + "." + DecimalString(b) + "." + DecimalString(c) + "." + DecimalString(d))
  {
    DecimalOctet(a); DecimalOctet(b); DecimalOctet(c); DecimalOctet(d);
    ValidateJoinedOctets(DecimalString(a), DecimalString(b), DecimalString(c), DecimalString(d));
  }

  lemma JoinFour(parts: seq<string>, sep: char)
    requires |parts| == 4
    ensures Join(parts, sep) == parts[0] + [sep] + parts[1] + [sep] + parts[2] + [sep] + parts[3]
    ensures sep == '.' ==> Join(parts, sep) == parts[0] + "." + parts[1] + "." + parts[2] + "." + parts[3]
  {
    assert parts[1..][1..] == parts[2..];
    assert parts[2..][1..] == parts[3..];
    assert Join(parts[3..], sep) == parts[3];
    assert Join(parts[2..], sep) == parts[2] + [sep] + parts[3];
    assert Join(parts[1..], sep) == parts[1] + [sep] + (parts[2] + [sep] + parts[3]);
  }

  /** A parse failure in any part, or a part out of range, rejects the address. */
  lemma RejectsBadPart(ip: string, i: nat)
    requires i < |Split(ip, '.')| && !IsOctet(Split(ip, '.')[i])
    ensures !ValidateIp(ip)
  {
    AllOctetsIff(Split(ip, '.'));
  }

  /** An address `validate_ip` accepts has no colon in it. */
  lemma ValidIpHasNoColon(ip: string)
    requires ValidateIp(ip)
    ensures ':' !in ip
  {
    var parts := Split(ip, '.');
    ValidateIpIff(ip);
    forall i | 0 <= i < |parts| ensures ':' !in parts[i] {
      ParsedChars(parts[i]);
    }
    JoinChars(parts, '.', ':');
  }

  // ---------------------------------------------------------------------------
  // validate_port

  /** Every number in [0, 65535], written in decimal, is an accepted port. */
  lemma ValidatePortDecimal(n: nat)
    requires n <= 65535
    ensures ValidatePort(DecimalString(n))
  {
    ParseDecimal(n);
  }

  /** A port `validate_port` accepts has no colon in it. */
  lemma ValidPortHasNoColon(port: string)
    requires ValidatePort(port)
    ensures ':' !in port
  {
    ParsedChars(port);
  }

  /** A port out of range is rejected even though it parses. */
  lemma RejectsPortAbove(n: nat)
    requires n > 65535
    ensures !ValidatePort(DecimalString(n))
  {
    ParseDecimal(n);
  }

  // ---------------------------------------------------------------------------
  // Examples

  lemma SmallOctets()
    ensures IsOctet("1") && IsOctet("3") && IsOctet("4")
  {
    ParseDecimal(1); ParseDecimal(3); ParseDecimal(4);
  }

  lemma SpacedOctet()
    ensures IsOctet(" 2")
  {
    ParseDecimal(2);
    assert DecimalString(2) == "2";
    ParseIgnoresSpace(" ", "2", "");
    assert " " + "2" + "" == " 2";
  }

  lemma LargeOctets()
    ensures IsOctet("192") && IsOctet("168") && !IsOctet("256")
  {
    ParseDecimal(192); ParseDecimal(168); ParseDecimal(256);
    assert DecimalString(192) == "192";
    assert DecimalString(168) == "168";
    assert DecimalString(256) == "256";
  }

  /** `int()` strips each part, so a space after a dot does not reject an
      address that the caller stripped only at its ends. */
  lemma AcceptsSpaceInsidePart()
    ensures ValidateIp("1. 2.3.4")
  {
    SmallOctets();
    SpacedOctet();
    ValidateJoinedOctets("1", " 2", "3", "4");
    assert "1" + "." + " 2" + "." + "3" + "." + "4" == "1. 2.3.4";
  }

  lemma AcceptsPrivateAddress()
    ensures ValidateIp("192.168.1.1")
  {
    assert "192" + "." + "168" + "." + "1" + "." + "1" == "192.168.1.1";
    SmallOctets();
    LargeOctets();
    ValidateJoinedOctets("192", "168", "1", "1");
  }

  lemma RejectsThreeParts()
    ensures !ValidateIp("1.2.3")
  {
    var parts := ["1", "2", "3"];
    assert parts[1..][1..] == ["3"];
    assert Join(parts, '.') == "1.2.3";
    SplitJoin(parts, '.');
  }

  lemma RejectsOctetAbove255()
    ensures !ValidateIp("192.168.1.256")
  {
    var parts := ["192", "168", "1", "256"];
    JoinFour(parts, '.');
    assert Join(parts, '.') == "192.168.1.256";
    SplitJoin(parts, '.');
    LargeOctets();
    RejectsBadPart("192.168.1.256", 3);
  }

  /** A separator after a dot is not skipped by `int()`, although the
      stripping of the whole address keeps it as it is. */
  lemma RejectsSeparatorInPart()
    ensures Strip("1.\U{1C}2.3.4") == "1.\U{1C}2.3.4"
    ensures !ValidateIp("1.\U{1C}2.3.4")
  {
    var ip := "1.\U{1C}2.3.4";
    StripTight(ip);
    var parts := ["1", "\U{1C}2", "3", "4"];
    JoinFour(parts, '.');
    assert Join(parts, '.') == ip;
    SplitJoin(parts, '.');
    SeparatorRejected("\U{1C}", "2");
    assert "\U{1C}" + "2" == "\U{1C}2";
    RejectsBadPart(ip, 1);
  }

  /** A separator at an end of the address is removed by the caller's
      `strip()` before `validate_ip` sees it. */
  lemma AcceptsSeparatorAroundAddress()
    ensures ValidateInput("\U{1C}1.2.3.4", "5555")
  {
    assert "\U{1C}" + "1.2.3.4" + "" == "\U{1C}1.2.3.4";
    StripSurrounded("\U{1C}", "1.2.3.4", "");
    StripTight("1.2.3.4");
    StripTight("5555");
    AcceptsPlainAddress();
    AcceptsPorts();
  }

  lemma AcceptsPlainAddress()
    ensures ValidateIp("1.2.3.4")
  {
    assert "1" + "." + "2" + "." + "3" + "." + "4" == "1.2.3.4";
    SmallOctets();
    ParseDecimal(2);
    assert DecimalString(2) == "2";
    ValidateJoinedOctets("1", "2", "3", "4");
  }

  lemma AcceptsPorts()
    ensures ValidatePort("0") && ValidatePort("5555")
  {
    ParseDecimal(0); ParseDecimal(5555);
    assert DecimalString(5555) == "5555";
  }

  lemma RejectsPorts()
    ensures !ValidatePort("65536") && !ValidatePort("abc") && !ValidatePort("")
  {
    ParseDecimal(65536);
    assert DecimalString(65536) == "65536";
    StripTight("abc");
  }
}
