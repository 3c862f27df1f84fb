/** Peer configuration files: what their lines mean, and what loading them answers. */
module PeerConfigFile {
  import opened CTypes
  import opened PeerConfig
  import Ipv4Literal

  /** The lines a configuration file may hold. */
  datatype Line =
    | Empty(pad: string)
    | Comment(pad: string, text: string)
    | Stray(lead: string, text: string, trail: string)
    | Setting(lead: string, name: string, left: string, right: string, value: string, trail: string)

  predicate All(s: string, p: char -> bool) {
    forall i | 0 <= i < |s| :: p(s[i])
  }

  /** What trim takes off the end of a line. */
  predicate Padding(s: string) {
    All(s, c => c == ' ' || c == '\t' || c == '\r')
  }

  /** What trim takes off its beginning. */
  predicate Blanks(s: string) {
    All(s, c => c == ' ' || c == '\t')
  }

  /** No newline, no terminator, and nothing trim would remove. */
  predicate Neat(s: string) {
    && All(s, c => c != '\n' && c != '\0')
    && (s != "" ==> s[0] != ' ' && s[0] != '\t' && s[|s| - 1] != ' ' && s[|s| - 1] != '\t' && s[|s| - 1] != '\r')
  }

  /** Something that is no comment and begins before any '='. */
  predicate Begins(s: string) {
    Neat(s) && s != "" && s[0] != '#' && All(s, c => c != '=')
  }

  predicate Proper(line: Line) {
    match line
    case Empty(pad) => Padding(pad)
    case Comment(pad, text) => Blanks(pad) && All(text, c => c != '\n' && c != '\0')
    case Stray(lead, text, trail) => Blanks(lead) && Padding(trail) && Begins(text)
    case Setting(lead, name, left, right, value, trail) =>
      && Blanks(lead) && Padding(left) && Blanks(right) && Padding(trail) && Begins(name) && Neat(value)
  }

  function RenderLine(line: Line): string {
    match line
    case Empty(pad) => pad
    case Comment(pad, text) => pad + "#" + text
    case Stray(lead, text, trail) => lead + text + trail
    case Setting(lead, name, left, right, value, trail) => lead + name + left + "=" + right + value + trail
  }

  function Render(lines: seq<Line>): string {
    if lines == [] then ""
    else if |lines| == 1 then RenderLine(lines[0])
    else RenderLine(lines[0]) + "\n" + Render(lines[1..])
  }

  function Effect(c: Config, line: Line): Parsed {
    if line.Setting? then Assign(c, line.name, line.value) else if line.Stray? then Err(-3) else Ok(c)
  }

  function Effects(c: Config, lines: seq<Line>): Parsed
    decreases |lines|
  {
    if lines == [] then Ok(c)
    else match Effect(c, lines[0])
         case Err(code) => Err(code)
         case Ok(next) => Effects(next, lines[1..])
  }

  lemma {:induction false} TrimLeftPad(pad: string, s: string)
    requires Blanks(pad)
    ensures TrimLeft(pad + s) == TrimLeft(s)
  {
    if pad == "" {
      assert pad + s == s;
    } else {
      assert (pad + s)[1..] == pad[1..] + s;
      TrimLeftPad(pad[1..], s);
    }
  }

  lemma {:induction false} TrimRightPad(s: string, pad: string)
    requires All(pad, Trailing)
    ensures TrimRight(s + pad) == TrimRight(s)
  {
    if pad == "" {
      assert s + pad == s;
    } else {
      assert (s + pad)[..|s + pad| - 1] == s + pad[..|pad| - 1];
      TrimRightPad(s, pad[..|pad| - 1]);
    }
  }

  /** Padding around a text that does not begin or end in it comes off exactly. */
  lemma TrimPadded(lead: string, s: string, trail: string)
    requires Blanks(lead) && All(trail, Trailing)
    requires s != "" && !Blank(s[0]) && !Trailing(s[|s| - 1])
    ensures Trim(lead + s + trail) == s
  {
    assert lead + s + trail == lead + (s + trail);
    TrimLeftPad(lead, s + trail);
    assert (s + trail)[0] == s[0];
    TrimRightPad(s, trail);
  }

  lemma {:induction false} TrimAway(s: string)
    requires All(s, Trailing)
    ensures Trim(s) == ""
  {
    if s != "" && Blank(s[0]) {
      TrimAway(s[1..]);
    } else {
      assert "" + s == s;
      TrimRightPad("", s);
    }
  }

  lemma FindFirst(a: string, c: char, b: string)
    requires All(a, x => x != c)
    ensures Find(a + [c] + b, c) == |a|
  {
    var s := a + [c] + b;
    assert s[|a|] == c;
    assert forall i | 0 <= i < |a| :: s[i] == a[i];
  }

  /** What is behind the '=' once the line is trimmed. */
  function Behind(line: Line): string
    requires line.Setting?
  {
    if line.value == "" then "" else line.right + line.value
  }

  lemma EntryOf(line: Line)
    requires Proper(line) && line.Setting?
    ensures Trim(RenderLine(line)) == line.name + line.left + "=" + Behind(line)
  {
    var front := line.name + line.left + "=";
    var entry := front + Behind(line);
    assert entry[0] == line.name[0];
    if line.value == "" {
      var trail := line.right + line.trail;
      assert RenderLine(line) == line.lead + entry + trail;
      TrimPadded(line.lead, entry, trail);
    } else {
      assert RenderLine(line) == line.lead + entry + line.trail;
      assert entry[|entry| - 1] == line.value[|line.value| - 1];
      TrimPadded(line.lead, entry, line.trail);
    }
  }

  lemma HalvesOf(line: Line)
    requires Proper(line) && line.Setting?
    ensures Trim(line.name + line.left) == line.name && Trim(Behind(line)) == line.value
  {
    assert "" + line.name + line.left == line.name + line.left;
    TrimPadded("", line.name, line.left);
    if line.value != "" {
      assert line.right + line.value + "" == line.right + line.value;
      TrimPadded(line.right, line.value, "");
    }
  }

  lemma CutEntry(front: string, back: string)
    requires All(front, x => x != '=')
    ensures var entry := front + "=" + back;
            Find(entry, '=') == |front| && entry[..|front|] == front && entry[|front| + 1..] == back
  {
    FindFirst(front, '=', back);
  }

  lemma EntryMeans(c: Config, line: string, front: string, back: string)
    requires Trim(line) == front + "=" + back
    requires front != "" && front[0] != '#' && All(front, x => x != '=')
    ensures ParseLine(c, line) == Assign(c, Trim(front), Trim(back))
  {
    CutEntry(front, back);
    assert Trim(line)[0] == front[0];
  }

  lemma FrontOf(line: Line)
    requires Proper(line) && line.Setting?
    ensures var front := line.name + line.left; front != "" && front[0] != '#' && All(front, x => x != '=')
  {}

  lemma SettingMeans(c: Config, line: Line)
    requires Proper(line) && line.Setting?
    ensures ParseLine(c, RenderLine(line)) == Assign(c, line.name, line.value)
  {
    EntryOf(line);
    HalvesOf(line);
    FrontOf(line);
    EntryMeans(c, RenderLine(line), line.name + line.left, Behind(line));
  }

  lemma PlusPort(port: uint16)
    requires port >= 1
    ensures Port("+" + Ipv4Literal.Decimal(port)) == Some(port)
  {
    Ipv4Literal.DecimalValue(port);
    assert PortText("+" + Ipv4Literal.Decimal(port), "", "+", Ipv4Literal.Decimal(port), port);
    PortReads("+" + Ipv4Literal.Decimal(port), "", "+", Ipv4Literal.Decimal(port), port);
  }

  /** A port line with a plus sign before the port is let through, whatever pads it. */
  lemma PlusSignLetThrough(c: Config, line: Line, port: uint16)
    requires Proper(line) && line.Setting? && line.name == "endpoint_port"
    requires port >= 1 && line.value == "+" + Ipv4Literal.Decimal(port)
    ensures ParseLine(c, RenderLine(line)) == Ok(c.(port := port))
  {
    PlusPort(port);
    SettingMeans(c, line);
  }

  lemma PlusEighty()
    ensures Port("+80") == Some(80)
  {
    assert "80"[..1] == "8" && "8"[..0] == "";
  }

  lemma {:induction false} TrimRightKeeps(s: string)
    requires s != "" && s[0] == '#'
    ensures TrimRight(s) != "" && TrimRight(s)[0] == '#'
  {
    if Trailing(s[|s| - 1]) { TrimRightKeeps(s[..|s| - 1]); }
  }

  lemma StrayMeans(c: Config, line: Line)
    requires Proper(line) && line.Stray?
    ensures ParseLine(c, RenderLine(line)) == Err(-3)
  {
    TrimPadded(line.lead, line.text, line.trail);
    assert Find(line.text, '=') == |line.text|;
  }

  lemma LineMeans(c: Config, line: Line)
    requires Proper(line)
    ensures ParseLine(c, RenderLine(line)) == Effect(c, line)
  {
    match line
    case Empty(pad) => TrimAway(pad);
    case Comment(pad, text) =>
      TrimLeftPad(pad, "#" + text);
      assert RenderLine(line) == pad + ("#" + text);
      TrimRightKeeps("#" + text);
    case Stray(_, _, _) => StrayMeans(c, line);
    case Setting(_, _, _, _, _, _) => SettingMeans(c, line);
  }

  lemma NoNewline(line: Line)
    requires Proper(line)
    ensures All(RenderLine(line), c => c != '\n')
  {}

  function Continue(p: Parsed, text: string): Parsed {
    if p.Err? then p else ParseText(p.config, text)
  }

  lemma LineThenRest(c: Config, line: string, rest: string)
    requires All(line, x => x != '\n') && (rest != "" ==> rest[0] == '\n')
    ensures ParseText(c, line + rest) == Continue(ParseLine(c, line), rest)
  {
    var text := line + rest;
    if line == "" {
      assert text == rest;
    } else {
      if rest != "" {
        FindFirst(line, '\n', rest[1..]);
        assert text == line + ['\n'] + rest[1..];
      } else {
        assert forall i | 0 <= i < |text| :: text[i] == line[i];
      }
      assert Find(text, '\n') == |line| && text[..|line|] == line && text[|line|..] == rest;
    }
  }

  /** Parsing a rendered file applies its settings in order, whatever stands between them. */
  lemma {:induction false} ParseRendered(c: Config, lines: seq<Line>)
    requires forall i | 0 <= i < |lines| :: Proper(lines[i])
    ensures ParseText(c, Render(lines)) == Effects(c, lines)
    decreases |lines|
  {
    if lines != [] {
      var line, rest := RenderLine(lines[0]), if |lines| == 1 then "" else "\n" + Render(lines[1..]);
      LineMeans(c, lines[0]);
      NoNewline(lines[0]);
      assert Render(lines) == line + rest;
      assert |lines| > 1 ==> forall x :: ParseText(x, rest) == ParseText(x, rest[1..]);
      LineThenRest(c, line, rest);
      if Effect(c, lines[0]).Ok? {
        ParseRendered(Effect(c, lines[0]).config, lines[1..]);
      }
    }
  }

  /** The last value a file sets under a name. */
  function Last(lines: seq<Line>, name: string): Option<string>
    decreases |lines|
  {
    if lines == [] then None
    else
      var later := Last(lines[1..], name);
      if later.None? && lines[0].Setting? && lines[0].name == name then Some(lines[0].value) else later
  }

  ghost predicate IsPort(text: string) {
    exists p, space, sign, digits :: PortText(text, space, sign, digits, p)
  }

  lemma PortIsText(text: string)
    ensures Port(text).Some? <==> IsPort(text)
  {
    if Port(text).Some? { PortSyntax(text, Port(text).value); }
    if IsPort(text) {
      var p, space, sign, digits :| PortText(text, space, sign, digits, p);
      PortSyntax(text, p);
    }
  }

  /** The error of the first line that is wrong: an entry without '=' or a port that is none. */
  ghost function ErrorOf(lines: seq<Line>): int {
    if lines == [] then 0
    else if lines[0].Stray? then -3
    else if lines[0].Setting? && lines[0].name == "endpoint_port" && !IsPort(lines[0].value) then -4
    else ErrorOf(lines[1..])
  }

  /** The first n characters. */
  function First(s: string, n: nat): string {
    if |s| <= n then s else s[..n]
  }

  /** The last value a file sets under a name, as far as it fits. */
  function Held(text: string, last: Option<string>, n: nat): string {
    if last.Some? then First(last.value, n) else text
  }

  lemma {:induction false} WrongLineStops(c: Config, lines: seq<Line>)
    requires ErrorOf(lines) != 0
    ensures Effects(c, lines) == Err(ErrorOf(lines))
    decreases |lines|
  {
    var line := lines[0];
    if line.Setting? { PortIsText(line.value); }
    if Effect(c, line).Ok? { WrongLineStops(Effect(c, line).config, lines[1..]); }
  }

  lemma {:induction false} LastPortValid(lines: seq<Line>)
    requires ErrorOf(lines) == 0 && Last(lines, "endpoint_port").Some?
    ensures Port(Last(lines, "endpoint_port").value).Some?
    decreases |lines|
  {
    if lines[0].Setting? { PortIsText(lines[0].value); }
    if Last(lines[1..], "endpoint_port").Some? { LastPortValid(lines[1..]); }
  }

  /** Later settings override earlier ones and unknown ones do nothing; a key is held up to 79 characters
      and an address up to 47. */
  lemma {:induction false} LastSettingWins(c: Config, lines: seq<Line>)
    requires ErrorOf(lines) == 0
    ensures Effects(c, lines).Ok?
    ensures var r, port := Effects(c, lines).config, Last(lines, "endpoint_port");
            && r.key == Held(c.key, Last(lines, "peer_public_key"), 79)
            && r.ip == Held(c.ip, Last(lines, "endpoint_ip"), 47)
            && (if port.None? then r.port == c.port else Port(port.value) == Some(r.port))
    decreases |lines|
  {
    if lines != [] {
      var line := lines[0];
      if line.Setting? { PortIsText(line.value); }
      LastSettingWins(Effect(c, line).config, lines[1..]);
      if Last(lines[1..], "endpoint_port").Some? { LastPortValid(lines[1..]); }
    }
  }

  lemma PortOfDecimal(port: uint16)
    requires port >= 1
    ensures Port(Ipv4Literal.Decimal(port)) == Some(port)
  {
    Ipv4Literal.DecimalValue(port);
    assert Ipv4Literal.IsDigit(Ipv4Literal.Decimal(port)[0]);
  }

  lemma {:induction false} RenderedNulFree(lines: seq<Line>)
    requires forall i | 0 <= i < |lines| :: Proper(lines[i])
    ensures NulFree(Render(lines))
  {
    if |lines| > 1 { RenderedNulFree(lines[1..]); }
  }

  lemma RenderedIsText(lines: seq<Line>)
    requires forall i | 0 <= i < |lines| :: Proper(lines[i])
    ensures TextOf(Render(lines)) == Render(lines)
    ensures ParseText(UNSET, TextOf(Render(lines))) == Effects(UNSET, lines)
  {
    RenderedNulFree(lines);
    ParseRendered(UNSET, lines);
  }

  /** A file whose last settings are a key, an address and a port that fit their buffers gives back
      exactly these three, in whatever order and among whatever else they stand. */
  lemma ConfigRoundTrip(lines: seq<Line>, key: string, ip: string, port: uint16)
    requires (forall i | 0 <= i < |lines| :: Proper(lines[i])) && ErrorOf(lines) == 0
    requires Last(lines, "peer_public_key") == Some(key) && |key| < 80
    requires Last(lines, "endpoint_ip") == Some(ip) && |ip| < 48
    requires port >= 1 && Last(lines, "endpoint_port") == Some(Ipv4Literal.Decimal(port))
    ensures ParseText(UNSET, TextOf(Render(lines))) == Ok(Config(key, ip, port))
  {
    RenderedIsText(lines);
    LastSettingWins(UNSET, lines);
    PortOfDecimal(port);
  }

  // ---------- what is answered for a file ----------

  function KeyOf(lines: seq<Line>): string {
    Held("", Last(lines, "peer_public_key"), 79)
  }

  function AddressOf(lines: seq<Line>): string {
    Held("", Last(lines, "endpoint_ip"), 47)
  }

  predicate Complete(lines: seq<Line>) {
    KeyOf(lines) != "" && AddressOf(lines) != "" && Last(lines, "endpoint_port").Some?
  }

  predicate KeyDecodes(lines: seq<Line>, decode: string -> Option<Bytes>) {
    decode(KeyOf(lines)).Some? && |decode(KeyOf(lines)).value| == 32
  }

  ghost predicate AddressSpells(lines: seq<Line>) {
    exists v: Bytes :: |v| == 4 && Ipv4Literal.Spells(AddressOf(lines), v)
  }

  /** The first wrong line decides; then whether all three settings are there, then the key, then the
      address. */
  ghost predicate Answered(lines: seq<Line>, decode: string -> Option<Bytes>, result: int) {
    && (ErrorOf(lines) != 0 ==> result == ErrorOf(lines))
    && (ErrorOf(lines) == 0 ==>
          && (result == -5 <==> !Complete(lines))
          && (result == -6 <==> Complete(lines) && !KeyDecodes(lines, decode))
          && (result == -7 <==> Complete(lines) && KeyDecodes(lines, decode) && !AddressSpells(lines))
          && (result == 0 <==> Complete(lines) && KeyDecodes(lines, decode) && AddressSpells(lines)))
  }

  lemma EffectsHeld(lines: seq<Line>)
    requires ErrorOf(lines) == 0
    ensures var p := Effects(UNSET, lines);
            && p.Ok? && p.config.key == KeyOf(lines) && p.config.ip == AddressOf(lines)
            && (p.config.port != 0 <==> Last(lines, "endpoint_port").Some?)
  {
    LastSettingWins(UNSET, lines);
  }

  lemma GoodFileAnswered(lines: seq<Line>, decode: string -> Option<Bytes>, c: Config, result: int)
    requires ErrorOf(lines) == 0 && result == Verdict(Ok(c), decode)
    requires c.key == KeyOf(lines) && c.ip == AddressOf(lines)
    requires c.port != 0 <==> Last(lines, "endpoint_port").Some?
    ensures Answered(lines, decode, result)
  {
    assert Ipv4Literal.Hopeless(c.ip) <==> !AddressSpells(lines);
  }

  lemma FileVerdict(lines: seq<Line>, decode: string -> Option<Bytes>, p: Parsed, result: int)
    requires forall i | 0 <= i < |lines| :: Proper(lines[i])
    requires p == ParseText(UNSET, TextOf(Render(lines))) && result == Verdict(p, decode)
    ensures Answered(lines, decode, result)
  {
    RenderedIsText(lines);
    if ErrorOf(lines) != 0 {
      WrongLineStops(UNSET, lines);
    } else {
      EffectsHeld(lines);
      GoodFileAnswered(lines, decode, p.config, result);
    }
  }

  /** load_peer_config on any file of such lines: its answer, and on success the three values. */
  method LoadRendered(contents: array<char>, lines: seq<Line>, decode: string -> Option<Bytes>)
    returns (result: int, config: Config)
    requires contents.Length == 512 && |Render(lines)| <= 511 && contents[..|Render(lines)|] == Render(lines)
    requires forall i | 0 <= i < |lines| :: Proper(lines[i])
    modifies contents
    ensures Answered(lines, decode, result)
    ensures result == 0 ==>
              && config.key == KeyOf(lines) && config.ip == AddressOf(lines)
              && exists space, sign, digits ::
                   PortText(Last(lines, "endpoint_port").value, space, sign, digits, config.port)
  {
    result, config := LoadPeerConfig(contents, |Render(lines)|, decode);
    FileVerdict(lines, decode, ParseText(UNSET, TextOf(Render(lines))), result);
    if result == 0 {
      RenderedIsText(lines);
      LastSettingWins(UNSET, lines);
      PortSyntax(Last(lines, "endpoint_port").value, config.port);
    }
  }
}
