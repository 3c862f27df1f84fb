/** The peer configuration file, parsed in place in a character buffer. */
module PeerConfig {
  import opened CTypes
  import Ipv4Literal

  const KEY_BUFFER := 80
  const IP_BUFFER := 48

  /** The values as the buffers hold them; "" and 0 while unset. */
  datatype Config = Config(key: string, ip: string, port: uint16)

  const UNSET: Config := Config("", "", 0)

  datatype Parsed = Ok(config: Config) | Err(code: int)

  predicate Blank(c: char) {
    c == ' ' || c == '\t'
  }

  predicate Trailing(c: char) {
    Blank(c) || c == '\r' || c == '\n'
  }

  function TrimLeft(s: string): string {
    if s != "" && Blank(s[0]) then TrimLeft(s[1..]) else s
  }

  function TrimRight(s: string): string {
    if s != "" && Trailing(s[|s| - 1]) then TrimRight(s[..|s| - 1]) else s
  }

  function Trim(s: string): string {
    TrimRight(TrimLeft(s))
  }

  /** The position of the first c, or the end. */
  function Find(s: string, c: char): (k: nat)
    ensures k <= |s| && (k < |s| ==> s[k] == c) && forall i | 0 <= i < k :: s[i] != c
  {
    if s == "" || s[0] == c then 0 else 1 + Find(s[1..], c)
  }

  /** What snprintf leaves of a value in a buffer of `size` characters. */
  function Cut(s: string, size: nat): string
    requires size > 0
  {
    if |s| < size then s else s[..size - 1]
  }

  predicate IsSpace(c: char) {
    c == ' ' || '\t' <= c <= '\r'
  }

  function SkipSpace(s: string): string {
    if s != "" && IsSpace(s[0]) then SkipSpace(s[1..]) else s
  }

  /** strtol in base 10 over the whole text, then the range check: leading white space and a plus
      sign are let through. */
  function Port(s: string): Option<uint16> {
    var t := SkipSpace(s);
    var digits := if t != "" && t[0] == '+' then t[1..] else t;
    if digits != "" && Ipv4Literal.AllDigits(digits) && 1 <= Ipv4Literal.Value(digits) <= 65535
    then Some(Ipv4Literal.Value(digits)) else None
  }

  /** White space (blanks and characters 9 to 13), an optional plus sign, and digits worth p. */
  ghost predicate PortText(s: string, space: string, sign: string, digits: string, p: uint16) {
    && s == space + sign + digits && sign in {"", "+"}
    && (forall i | 0 <= i < |space| :: space[i] == ' ' || 9 <= space[i] as int <= 13)
    && digits != "" && Ipv4Literal.AllDigits(digits) && Ipv4Literal.Value(digits) == p >= 1
  }

  lemma {:induction false} SkipsSpace(s: string) returns (space: string)
    ensures s == space + SkipSpace(s) && forall i | 0 <= i < |space| :: IsSpace(space[i])
  {
    space := "";
    if s != "" && IsSpace(s[0]) {
      var more := SkipsSpace(s[1..]);
      space := [s[0]] + more;
    }
  }

  lemma {:induction false} SpaceSkipped(space: string, t: string)
    requires forall i | 0 <= i < |space| :: IsSpace(space[i])
    requires t != "" && !IsSpace(t[0])
    ensures SkipSpace(space + t) == t
  {
    if space == "" {
      assert space + t == t;
    } else {
      assert (space + t)[1..] == space[1..] + t;
      SpaceSkipped(space[1..], t);
    }
  }

  lemma PortReads(s: string, space: string, sign: string, digits: string, p: uint16)
    requires PortText(s, space, sign, digits, p)
    ensures Port(s) == Some(p)
  {
    var t := sign + digits;
    assert t[0] == '+' || Ipv4Literal.IsDigit(t[0]);
    SpaceSkipped(space, t);
    assert s == space + t;
    if sign == "+" {
      assert t[1..] == digits;
    } else {
      assert t == digits && Ipv4Literal.IsDigit(digits[0]);
    }
  }

  /** The texts the port is read from, and what they are worth. */
  lemma PortSyntax(s: string, p: uint16)
    ensures Port(s) == Some(p) <==> exists space, sign, digits :: PortText(s, space, sign, digits, p)
  {
    if Port(s) == Some(p) {
      var space := SkipsSpace(s);
      var t := SkipSpace(s);
      var sign, digits := if t[0] == '+' then "+" else "", if t[0] == '+' then t[1..] else t;
      assert PortText(s, space, sign, digits, p);
    }
    if exists space, sign, digits :: PortText(s, space, sign, digits, p) {
      var space, sign, digits :| PortText(s, space, sign, digits, p);
      PortReads(s, space, sign, digits, p);
    }
  }

  function Assign(c: Config, name: string, value: string): Parsed {
    if name == "peer_public_key" then Ok(c.(key := Cut(value, KEY_BUFFER)))
    else if name == "endpoint_ip" then Ok(c.(ip := Cut(value, IP_BUFFER)))
    else if name == "endpoint_port" then
      if Port(value).None? then Err(-4) else Ok(c.(port := Port(value).value))
    else Ok(c)
  }

  function ParseEntry(c: Config, entry: string): Parsed {
    var k := Find(entry, '=');
    if k == |entry| then Err(-3) else Assign(c, Trim(entry[..k]), Trim(entry[k + 1..]))
  }

  function ParseLine(c: Config, line: string): Parsed {
    var entry := Trim(line);
    if entry == "" || entry[0] == '#' then Ok(c) else ParseEntry(c, entry)
  }

  /** All lines of a text, runs of newlines counting as one. */
  function ParseText(c: Config, text: string): Parsed
    decreases |text|
  {
    if text == "" then Ok(c)
    else if text[0] == '\n' then ParseText(c, text[1..])
    else
      var k := Find(text, '\n');
      match ParseLine(c, text[..k])
      case Err(code) => Err(code)
      case Ok(next) => ParseText(next, text[k..])
  }

  // ---------- the parser in place ----------

  /** A C string occupies [start, end) and its terminator sits at `end`. */
  ghost predicate StringAt(s: seq<char>, start: nat, end: nat) {
    start <= end < |s| && s[end] == '\0' && forall i | start <= i < end :: s[i] != '\0'
  }

  predicate NulFree(s: string) {
    forall i | 0 <= i < |s| :: s[i] != '\0'
  }

  /** Only [start, end] may differ. */
  ghost predicate SameOutside(s: seq<char>, t: seq<char>, start: nat, end: nat) {
    |s| == |t| && start <= end < |s| && s[..start] == t[..start] && s[end..] == t[end..]
  }

  /** Where a string ends. */
  method EndOf(buffer: array<char>, start: nat, ghost end: nat) returns (at: nat)
    requires StringAt(buffer[..], start, end)
    ensures at == end
  {
    at := start;
    while buffer[at] != '\0'
      invariant start <= at <= end
      decreases end - at
    {
      at := at + 1;
    }
  }

  method SkipBlanks(buffer: array<char>, start: nat, ghost end: nat) returns (value: nat)
    requires StringAt(buffer[..], start, end)
    ensures start <= value <= end && buffer[value..end] == TrimLeft(buffer[start..end])
  {
    value := start;
    while Blank(buffer[value])
      invariant start <= value <= end
      invariant TrimLeft(buffer[value..end]) == TrimLeft(buffer[start..end])
      decreases end - value
    {
      assert buffer[value..end][1..] == buffer[value + 1..end];
      value := value + 1;
    }
  }

  method DropTrailing(buffer: array<char>, value: nat, end: nat) returns (stop: nat)
    requires value <= end <= buffer.Length
    ensures value <= stop <= end && buffer[value..stop] == TrimRight(buffer[value..end])
  {
    stop := end;
    while stop > value && Trailing(buffer[stop - 1])
      invariant value <= stop <= end
      invariant TrimRight(buffer[value..stop]) == TrimRight(buffer[value..end])
    {
      assert buffer[value..stop][..stop - 1 - value] == buffer[value..stop - 1];
      stop := stop - 1;
    }
  }

  /** trim: moves past leading blanks and cuts trailing ones by writing a terminator. */
  method TrimInPlace(buffer: array<char>, start: nat, ghost end: nat) returns (value: nat, ghost stop: nat)
    requires StringAt(buffer[..], start, end)
    modifies buffer
    ensures start <= value <= stop <= end && StringAt(buffer[..], value, stop)
    ensures buffer[value..stop] == Trim(old(buffer[start..end]))
    ensures SameOutside(old(buffer[..]), buffer[..], start, end)
  {
    value := SkipBlanks(buffer, start, end);
    var last := EndOf(buffer, value, end);
    last := DropTrailing(buffer, value, last);
    ghost var text := buffer[value..last];
    ghost var before := buffer[..];
    buffer[last] := '\0';
    stop := last;
    assert buffer[value..stop] == text;
    assert buffer[..] == before[last := '\0'];
  }

  /** strchr up to the terminator. */
  method FindInPlace(buffer: array<char>, start: nat, ghost end: nat, c: char) returns (at: nat)
    requires StringAt(buffer[..], start, end) && c != '\0'
    ensures start <= at <= end && at == start + Find(buffer[start..end], c)
  {
    at := start;
    while buffer[at] != '\0' && buffer[at] != c
      invariant start <= at <= end && at - start + Find(buffer[at..end], c) == Find(buffer[start..end], c)
      decreases end - at
    {
      assert buffer[at..end][1..] == buffer[at + 1..end];
      at := at + 1;
    }
  }

  /** The string at a position, as strcmp and snprintf read it. */
  method ReadString(buffer: array<char>, start: nat, ghost end: nat) returns (s: string)
    requires StringAt(buffer[..], start, end)
    ensures s == buffer[start..end]
  {
    var at := EndOf(buffer, start, end);
    s := buffer[start..at];
  }

  lemma SliceOutside(s: seq<char>, t: seq<char>, start: nat, end: nat, low: nat, high: nat)
    requires SameOutside(s, t, start, end) && low <= high <= |s| && (high <= start || end <= low)
    ensures s[low..high] == t[low..high]
  {
    forall i | low <= i < high ensures s[i] == t[i] {
      if high <= start {
        assert s[..start][i] == t[..start][i];
      } else {
        assert s[end..][i - end] == t[end..][i - end];
      }
    }
  }

  lemma OutsideWidens(s: seq<char>, t: seq<char>, u: seq<char>, start: nat, mid: nat, low: nat, end: nat)
    requires SameOutside(s, t, start, mid) && SameOutside(t, u, low, end) && start <= low <= end && mid <= end
    ensures SameOutside(s, u, start, end)
  {
    SliceOutside(s, t, start, mid, end, |s|);
    assert s[..start] == t[..start] == t[..low][..start] == u[..start];
  }

  lemma StringKept(s: seq<char>, t: seq<char>, low: nat, high: nat)
    requires StringAt(s, low, high) && |s| == |t| && s[low..high + 1] == t[low..high + 1]
    ensures StringAt(t, low, high)
  {
    forall i | low <= i <= high ensures t[i] == s[i] {
      assert t[i] == t[low..high + 1][i - low];
    }
  }

  /** Writes the terminator over the separator, which makes two strings of one. */
  lemma CutAt(s: seq<char>, start: nat, end: nat, k: nat)
    requires StringAt(s, start, end) && start <= k < end
    ensures StringAt(s[k := '\0'], start, k) && StringAt(s[k := '\0'], k + 1, end)
    ensures s[k := '\0'][start..k] == s[start..k] && s[k := '\0'][k + 1..end] == s[k + 1..end]
    ensures SameOutside(s, s[k := '\0'], start, end)
  {}

  /** Trims the two halves of an entry that has been cut at `separator`. */
  method TrimHalves(buffer: array<char>, entry: nat, separator: nat, ghost stop: nat)
    returns (name: string, value: string)
    requires StringAt(buffer[..], entry, separator) && StringAt(buffer[..], separator + 1, stop)
    modifies buffer
    ensures name == Trim(old(buffer[entry..separator])) && value == Trim(old(buffer[separator + 1..stop]))
    ensures NulFree(value)
    ensures SameOutside(old(buffer[..]), buffer[..], entry, stop)
  {
    ghost var s := buffer[..];
    var nameStart, nameEnd := TrimInPlace(buffer, entry, separator);
    ghost var t := buffer[..];
    name := ReadString(buffer, nameStart, nameEnd);
    SliceOutside(s, t, entry, separator, separator + 1, stop + 1);
    StringKept(s, t, separator + 1, stop);
    SliceOutside(s, t, entry, separator, separator + 1, stop);
    var valueStart, valueEnd := TrimInPlace(buffer, separator + 1, stop);
    value := ReadString(buffer, valueStart, valueEnd);
    OutsideWidens(s, t, buffer[..], entry, separator, separator + 1, stop);
  }

  /** Splits an entry at its first '=' and trims both halves; None without one. */
  method SplitInPlace(buffer: array<char>, entry: nat, ghost stop: nat) returns (r: Option<(string, string)>)
    requires StringAt(buffer[..], entry, stop)
    modifies buffer
    ensures SameOutside(old(buffer[..]), buffer[..], entry, stop)
    ensures var e := old(buffer[entry..stop]);
            var k := Find(e, '=');
            r == if k == |e| then None else Some((Trim(e[..k]), Trim(e[k + 1..])))
    ensures r.Some? ==> NulFree(r.value.1)
  {
    ghost var s := buffer[..];
    var separator := FindInPlace(buffer, entry, stop, '=');
    if buffer[separator] == '\0' {
      return None;
    }
    CutAt(s, entry, stop, separator);
    buffer[separator] := '\0';
    ghost var t := buffer[..];
    assert t == s[separator := '\0'];
    var name, value := TrimHalves(buffer, entry, separator, stop);
    OutsideWidens(s, t, buffer[..], entry, stop, entry, stop);
    ghost var e := s[entry..stop];
    assert e[..separator - entry] == s[entry..separator] && e[separator - entry + 1..] == s[separator + 1..stop];
    r := Some((name, value));
  }

  lemma Widen(s: seq<char>, t: seq<char>, start: nat, stop: nat, end: nat)
    requires SameOutside(s, t, start, stop) && stop <= end < |s|
    ensures SameOutside(s, t, start, end)
  {
    SliceOutside(s, t, start, stop, end, |s|);
  }

  method ParseEntryInPlace(buffer: array<char>, entry: nat, ghost stop: nat, config: Config) returns (r: Parsed)
    requires StringAt(buffer[..], entry, stop)
    modifies buffer
    ensures r == ParseEntry(config, old(buffer[entry..stop]))
    ensures NulFree(config.ip) && r.Ok? ==> NulFree(r.config.ip)
    ensures SameOutside(old(buffer[..]), buffer[..], entry, stop)
  {
    var halves := SplitInPlace(buffer, entry, stop);
    match halves
    case None => r := Err(-3);
    case Some(pair) => r := Assign(config, pair.0, pair.1);
  }

  method ParseLineInPlace(buffer: array<char>, start: nat, ghost end: nat, config: Config) returns (r: Parsed)
    requires StringAt(buffer[..], start, end)
    modifies buffer
    ensures r == ParseLine(config, old(buffer[start..end]))
    ensures NulFree(config.ip) && r.Ok? ==> NulFree(r.config.ip)
    ensures SameOutside(old(buffer[..]), buffer[..], start, end)
  {
    ghost var s := buffer[..];
    var entry, stop := TrimInPlace(buffer, start, end);
    ghost var t := buffer[..];
    assert entry < stop ==> buffer[entry] == buffer[entry..stop][0];
    if buffer[entry] == '\0' || buffer[entry] == '#' {
      return Ok(config);
    }
    r := ParseEntryInPlace(buffer, entry, stop, config);
    Widen(t, buffer[..], entry, stop, end);
    OutsideWidens(s, t, buffer[..], start, end, entry, end);
  }

  /** strtok with delimiter newline: the next nonempty line in [from, length), terminated in place. */
  method NextLine(buffer: array<char>, from: nat, ghost length: nat)
    returns (found: bool, start: nat, next: nat, ghost end: nat)
    requires StringAt(buffer[..], from, length)
    modifies buffer
    ensures from <= start <= length && |old(buffer[..])| == |buffer[..]|
    ensures forall c :: ParseText(c, old(buffer[from..length])) == ParseText(c, old(buffer[start..length]))
    ensures !found ==> start == length
    ensures found ==>
              && start < end <= length && StringAt(buffer[..], start, end)
              && buffer[start..end] == old(buffer[start..end])
              && old(buffer[start]) != '\n' && Find(old(buffer[start..length]), '\n') == end - start
              && next == (if end < length then end + 1 else end)
              && StringAt(buffer[..], next, length) && buffer[next..length] == old(buffer[next..length])
  {
    ghost var s := buffer[..];
    start := from;
    while buffer[start] == '\n'
      invariant from <= start <= length
      invariant forall c :: ParseText(c, buffer[from..length]) == ParseText(c, buffer[start..length])
      decreases length - start
    {
      assert buffer[start..length][1..] == buffer[start + 1..length];
      assert buffer[start..length][0] == '\n';
      start := start + 1;
    }
    next, end := start, start;
    if buffer[start] == '\0' {
      return false, start, next, end;
    }
    var stop := FindInPlace(buffer, start, length, '\n');
    end := stop;
    assert buffer[start..length][0] == buffer[start];
    found := true;
    if buffer[stop] == '\0' {
      next := stop;
    } else {
      CutAt(s, start, length, stop);
      buffer[stop] := '\0';
      assert buffer[..] == s[stop := '\0'];
      next := stop + 1;
    }
  }

  /** One line parsed: what is left of the text is the rest behind it. */
  lemma LineParsed(c: Config, text: string, k: nat)
    requires text != "" && text[0] != '\n' && k == Find(text, '\n')
    ensures ParseText(c, text) ==
            match ParseLine(c, text[..k])
            case Err(code) => Err(code)
            case Ok(next) => ParseText(next, if k < |text| then text[k + 1..] else "")
  {
    if k < |text| {
      assert text[k..][0] == '\n' && text[k..][1..] == text[k + 1..];
    } else {
      assert text[k..] == "";
    }
  }

  /** What the loop knows about the line it holds and the text from that line on. */
  ghost predicate LineHeld(s: seq<char>, start: nat, end: nat, next: nat, length: nat, rest: string) {
    && StringAt(s, start, end) && StringAt(s, next, length)
    && rest != "" && rest[0] != '\n' && Find(rest, '\n') == end - start && end <= next
    && rest[..end - start] == s[start..end]
    && s[next..length] == (if end - start < |rest| then rest[end - start + 1..] else "")
  }

  method FirstLine(buffer: array<char>, from: nat, ghost length: nat)
    returns (found: bool, start: nat, next: nat, ghost end: nat, ghost rest: string)
    requires StringAt(buffer[..], from, length)
    modifies buffer
    ensures |old(buffer[..])| == |buffer[..]|
    ensures forall c :: ParseText(c, old(buffer[from..length])) == ParseText(c, rest)
    ensures if found then LineHeld(buffer[..], start, end, next, length, rest) else rest == ""
    ensures |rest| <= length - from
  {
    ghost var s := buffer[..];
    found, start, next, end := NextLine(buffer, from, length);
    rest := s[start..length];
    if found {
      assert rest[..end - start] == s[start..end];
      if end < length { assert rest[end - start + 1..] == s[next..length]; }
    }
  }

  /** Parses the line that is held; the text behind it stays as it was. */
  method HandleLine(buffer: array<char>, config: Config, start: nat, ghost end: nat, ghost next: nat,
                    ghost length: nat, ghost rest: string)
    returns (r: Parsed)
    requires LineHeld(buffer[..], start, end, next, length, rest)
    modifies buffer
    ensures StringAt(buffer[..], next, length) && length - next < |rest|
    ensures NulFree(config.ip) && r.Ok? ==> NulFree(r.config.ip)
    ensures ParseText(config, rest) == match r case Err(code) => r case Ok(c) => ParseText(c, buffer[next..length])
  {
    ghost var s := buffer[..];
    LineParsed(config, rest, end - start);
    r := ParseLineInPlace(buffer, start, end, config);
    SliceOutside(s, buffer[..], start, end, next, length + 1);
    StringKept(s, buffer[..], next, length);
    SliceOutside(s, buffer[..], start, end, next, length);
    assert |s[next..length]| < |rest|;
  }

  /** The whole in-place loop computes what the text says. */
  method ParseInPlace(buffer: array<char>, ghost length: nat) returns (r: Parsed)
    requires StringAt(buffer[..], 0, length)
    modifies buffer
    ensures r == ParseText(UNSET, old(buffer[..length]))
    ensures r.Ok? ==> NulFree(r.config.ip)
  {
    var config := UNSET;
    ghost var all := ParseText(config, buffer[0..length]);
    assert buffer[..length] == buffer[0..length];
    var found, start, next, end, rest := FirstLine(buffer, 0, length);
    while found
      invariant all == ParseText(config, rest) && NulFree(config.ip)
      invariant if found then LineHeld(buffer[..], start, end, next, length, rest) else rest == ""
      decreases |rest|
    {
      var line := HandleLine(buffer, config, start, end, next, length, rest);
      if line.Err? {
        return line;
      }
      config := line.config;
      found, start, next, end, rest := FirstLine(buffer, next, length);
    }
    return Ok(config);
  }

  const KEY_LENGTH := 32

  /** What load_peer_config returns for a parsed text, given the base64 decoder. */
  ghost function Verdict(p: Parsed, decode: string -> Option<Bytes>): int {
    match p
    case Err(code) => code
    case Ok(c) =>
      if c.key == "" || c.ip == "" || c.port == 0 then -5
      else if decode(c.key).None? || |decode(c.key).value| != KEY_LENGTH then -6
      else if Ipv4Literal.Hopeless(c.ip) then -7
      else 0
  }

  /** The text of a buffer: what stands in front of its first terminator. */
  function TextOf(s: seq<char>): string {
    s[..Find(s, '\0')]
  }

  /** The endpoint check on a copy of the address with its terminator. */
  method IsLiteral(ip: string) returns (ok: bool)
    requires NulFree(ip)
    ensures ok <==> !Ipv4Literal.Hopeless(ip)
  {
    var text := new char[|ip| + 1](i requires 0 <= i <= |ip| => if i < |ip| then ip[i] else '\0');
    assert text[..text.Length - 1] == ip;
    var endpoint := new uint8[4];
    ok := Ipv4Literal.ParseIpv4Literal(text, endpoint);
  }

  /** The checks behind the loop. */
  method CheckConfig(config: Config, decode: string -> Option<Bytes>) returns (result: int)
    requires NulFree(config.ip)
    ensures result == Verdict(Ok(config), decode)
  {
    if config.key == "" || config.ip == "" || config.port == 0 {
      return -5;
    }
    var key := decode(config.key);
    if key.None? || |key.value| != KEY_LENGTH {
      return -6;
    }
    var literal := IsLiteral(config.ip);
    result := if literal then 0 else -7;
  }

  /** Terminates what was read and parses it. */
  method ParseContents(contents: array<char>, length: nat) returns (r: Parsed)
    requires length < contents.Length
    modifies contents
    ensures r == ParseText(UNSET, TextOf(old(contents[..length])))
    ensures r.Ok? ==> NulFree(r.config.ip)
  {
    ghost var s := contents[..length];
    ghost var end := Find(s, '\0');
    contents[length] := '\0';
    assert contents[..length] == s;
    assert contents[..end] == s[..end] == TextOf(s);
    assert end < length ==> contents[end] == s[end];
    assert forall i | 0 <= i < end :: contents[i] == s[i];
    r := ParseInPlace(contents, end);
  }

  /** load_peer_config after the file has been opened and read: `length` is what the read returned. */
  method LoadPeerConfig(contents: array<char>, length: int, decode: string -> Option<Bytes>)
    returns (result: int, config: Config)
    requires contents.Length == 512 && length <= 511
    modifies contents
    ensures length < 0 ==> result == length
    ensures length >= 0 ==>
              var p := ParseText(UNSET, TextOf(old(contents[..length])));
              result == Verdict(p, decode) && (p.Ok? ==> config == p.config)
  {
    config := UNSET;
    if length < 0 {
      return length, config;
    }
    var parsed := ParseContents(contents, length);
    if parsed.Err? {
      return parsed.code, config;
    }
    config := parsed.config;
    result := CheckConfig(config, decode);
  }
}
