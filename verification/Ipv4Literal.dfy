/** The dotted-quad parser. */
module Ipv4Literal {
  import opened CTypes

  /** A C string in memory: the text, its terminator and nothing more, so that a read past the
      terminator is out of bounds. */
  predicate CString(text: seq<char>) {
    |text| > 0 && text[|text| - 1] == '\0' && forall i | 0 <= i < |text| - 1 :: text[i] != '\0'
  }

  predicate IsDigit(c: char) {
    '0' <= c <= '9'
  }

  predicate AllDigits(s: string) {
    forall i | 0 <= i < |s| :: IsDigit(s[i])
  }

  function Digit(c: char): nat
    requires IsDigit(c)
  {
    c as int - '0' as int
  }

  /** The decimal value of a run of digits. */
  function Value(s: string): nat
    requires AllDigits(s)
  {
    if s == [] then 0 else 10 * Value(s[..|s| - 1]) + Digit(s[|s| - 1])
  }

  /** One to three digits, leading zeroes allowed, worth `v`. */
  predicate IsOctet(s: string, v: uint8) {
    1 <= |s| <= 3 && AllDigits(s) && Value(s) == v
  }

  ghost predicate SplitAt(text: string, k: nat, v: uint8) {
    k < |text| && text[k] == '.' && IsOctet(text[..k], v)
  }

  /** The grammar: `text` is one octet of value v[i] for each i, joined by single dots. */
  ghost predicate Spells(text: string, v: Bytes)
    decreases |v|
  {
    if |v| == 0 then false
    else if |v| == 1 then IsOctet(text, v[0])
    else exists k | 0 <= k < |text| :: SplitAt(text, k, v[0]) && Spells(text[k + 1..], v[1..])
  }

  lemma {:induction false} ValueGrows(s: string, j: nat)
    requires AllDigits(s) && j <= |s|
    ensures Value(s[..j]) <= Value(s)
    decreases |s| - j
  {
    if j == |s| {
      assert s[..j] == s;
    } else {
      assert s[..j + 1][..j] == s[..j];
      ValueGrows(s, j + 1);
    }
  }

  lemma OneSplit(s: string, k: nat, j: nat, v: uint8)
    requires k <= |s| && AllDigits(s[..k]) && (k == |s| || !IsDigit(s[k])) && j < |s|
    ensures SplitAt(s, j, v) ==> j == k
  {
    if j < k {
      assert s[..k][j] == s[j];
    } else if j > k {
      assert s[..j][k] == s[k];
    }
  }

  /** Where the digits of `s` end at k, the first octet can only be s[..k]. */
  lemma FirstOctet(s: string, k: nat, v: Bytes)
    requires k <= |s| && AllDigits(s[..k]) && (k == |s| || !IsDigit(s[k])) && |v| > 0
    ensures Spells(s, v) <==> if |v| == 1 then k == |s| && IsOctet(s, v[0])
                              else SplitAt(s, k, v[0]) && Spells(s[k + 1..], v[1..])
  {
    if |v| > 1 {
      forall j | 0 <= j < |s| ensures SplitAt(s, j, v[0]) ==> j == k { OneSplit(s, k, j, v[0]); }
    }
  }

  lemma NoSplit(s: string, k: nat, j: nat, v: uint8)
    requires k <= |s| && AllDigits(s[..k]) && (k > 3 || Value(s[..k]) > 255) && j < |s|
    ensures !SplitAt(s, j, v)
  {
    if j < k {
      assert s[..k][j] == s[j];
    } else if AllDigits(s[..j]) {
      assert s[..j][..k] == s[..k];
      ValueGrows(s[..j], k);
    }
  }

  /** Too many digits, or too large a value, spell nothing however the text goes on. */
  lemma TooLong(s: string, k: nat, v: Bytes)
    requires k <= |s| && AllDigits(s[..k]) && (k > 3 || Value(s[..k]) > 255)
    ensures !Spells(s, v)
  {
    if |v| == 1 {
      if AllDigits(s) { ValueGrows(s, k); }
    } else if |v| > 1 {
      forall j | 0 <= j < |s| ensures !SplitAt(s, j, v[0]) { NoSplit(s, k, j, v[0]); }
    }
  }

  /** What the text must still spell after the octets parsed so far. */
  ghost predicate Remains(t: string, parsed: Bytes, cursor: nat)
    requires cursor <= |t| && |parsed| <= 4
  {
    forall v: Bytes | |v| == 4 :: Spells(t, v) <==> v[..|parsed|] == parsed && Spells(t[cursor..], v[|parsed|..])
  }

  ghost predicate Hopeless(t: string) {
    forall v: Bytes | |v| == 4 :: !Spells(t, v)
  }

  /** The digits from `start` to `end` are all there are: they settle the next octet. */
  ghost predicate DigitRun(t: string, start: nat, end: nat) {
    start <= end <= |t| && AllDigits(t[start..end]) && (end == |t| || !IsDigit(t[end]))
  }

  lemma LastOctet(t: string, parsed: Bytes, start: nat, end: nat, v: Bytes)
    requires DigitRun(t, start, end) && |parsed| == 3 && Remains(t, parsed, start) && |v| == 4
    ensures Spells(t, v) <==> v[..3] == parsed && end == |t| && IsOctet(t[start..end], v[3])
  {
    var rest := t[start..];
    assert rest[..end - start] == t[start..end];
    FirstOctet(rest, end - start, v[3..]);
    if end == |t| { assert rest == t[start..end]; }
  }

  lemma MiddleOctet(t: string, parsed: Bytes, start: nat, end: nat, v: Bytes)
    requires DigitRun(t, start, end) && |parsed| < 3 && Remains(t, parsed, start) && |v| == 4
    ensures Spells(t, v) <==>
            && v[..|parsed|] == parsed && end < |t| && t[end] == '.'
            && IsOctet(t[start..end], v[|parsed|]) && Spells(t[end + 1..], v[|parsed| + 1..])
  {
    var n, rest := |parsed|, t[start..];
    assert rest[..end - start] == t[start..end];
    FirstOctet(rest, end - start, v[n..]);
    assert v[n..][1..] == v[n + 1..];
    if end < |t| { assert rest[end - start + 1..] == t[end + 1..]; }
  }

  lemma NoOctet(t: string, parsed: Bytes, start: nat, end: nat)
    requires DigitRun(t, start, end) && |parsed| < 4 && Remains(t, parsed, start)
    requires start == end || (if |parsed| < 3 then end == |t| || t[end] != '.' else end < |t|)
    ensures Hopeless(t)
  {
    forall v: Bytes | |v| == 4 ensures !Spells(t, v) {
      if |parsed| < 3 { MiddleOctet(t, parsed, start, end, v); } else { LastOctet(t, parsed, start, end, v); }
    }
  }

  lemma OctetTooLong(t: string, parsed: Bytes, start: nat, end: nat)
    requires start <= end <= |t| && AllDigits(t[start..end]) && (end - start > 3 || Value(t[start..end]) > 255)
    requires |parsed| < 4 && Remains(t, parsed, start)
    ensures Hopeless(t)
  {
    assert t[start..][..end - start] == t[start..end];
    forall v: Bytes | |v| == 4 ensures !Spells(t, v) {
      TooLong(t[start..], end - start, v[|parsed|..]);
    }
  }

  lemma PrefixGrows(v: Bytes, parsed: Bytes, octet: uint8)
    requires |parsed| < |v|
    ensures v[..|parsed| + 1] == parsed + [octet] <==> v[..|parsed|] == parsed && v[|parsed|] == octet
  {
    assert v[..|parsed| + 1] == v[..|parsed|] + [v[|parsed|]];
    assert (parsed + [octet])[..|parsed|] == parsed;
  }

  lemma NextRemains(t: string, parsed: Bytes, start: nat, end: nat, octet: uint8)
    requires DigitRun(t, start, end) && |parsed| < 3 && Remains(t, parsed, start)
    requires IsOctet(t[start..end], octet) && end < |t| && t[end] == '.'
    ensures Remains(t, parsed + [octet], end + 1)
  {
    forall v: Bytes | |v| == 4
      ensures Spells(t, v) <==> v[..|parsed| + 1] == parsed + [octet] && Spells(t[end + 1..], v[|parsed| + 1..])
    {
      MiddleOctet(t, parsed, start, end, v);
      PrefixGrows(v, parsed, octet);
    }
  }

  /** Reads one run of digits; gives up as soon as it is too long or too large. */
  method ReadOctet(text: array<char>, start: nat, ghost t: string) returns (ok: bool, value: nat, cursor: nat)
    requires CString(text[..]) && t == text[..text.Length - 1] && start <= |t|
    requires IsDigit(text[start])
    ensures start <= cursor <= |t| && AllDigits(t[start..cursor])
    ensures ok ==> value <= 255
    ensures if ok then DigitRun(t, start, cursor) && start < cursor && IsOctet(t[start..cursor], value)
            else cursor - start > 3 || Value(t[start..cursor]) > 255
  {
    value, cursor := 0, start;
    var digits := 0;
    while IsDigit(text[cursor])
      invariant start <= cursor <= |t| && digits == cursor - start && AllDigits(t[start..cursor])
      invariant value == Value(t[start..cursor]) && digits <= 3 && value <= 255
      decreases |t| - cursor
    {
      assert text[..][cursor] == text[cursor];
      assert t[start..cursor + 1][..cursor - start] == t[start..cursor];
      value := value * 10 + Digit(text[cursor]);
      digits := digits + 1;
      cursor := cursor + 1;
      if digits > 3 || value > 255 {
        return false, value, cursor;
      }
    }
    assert cursor < |t| ==> text[cursor] == t[cursor];
    ok := true;
  }

  method ScanOctets(text: array<char>, ghost t: string) returns (ok: bool, parsed: Bytes)
    requires CString(text[..]) && t == text[..text.Length - 1]
    ensures if ok then |parsed| == 4 && Spells(t, parsed) else Hopeless(t)
  {
    var cursor := 0;
    parsed := [];
    for octet := 0 to 4
      invariant cursor <= |t| && |parsed| == octet
      invariant octet < 4 ==> Remains(t, parsed, cursor)
      invariant octet == 4 ==> Spells(t, parsed)
    {
      assert cursor < |t| ==> text[cursor] == t[cursor];
      if !IsDigit(text[cursor]) {
        NoOctet(t, parsed, cursor, cursor);
        return false, parsed;
      }
      var found, number, end := ReadOctet(text, cursor, t);
      if !found {
        OctetTooLong(t, parsed, cursor, end);
        return false, parsed;
      }
      var value: uint8 := number;
      assert end < |t| ==> text[end] == t[end];
      if octet < 3 {
        if text[end] != '.' {
          NoOctet(t, parsed, cursor, end);
          return false, parsed;
        }
        NextRemains(t, parsed, cursor, end, value);
        cursor := end + 1;
      } else {
        if text[end] != '\0' {
          NoOctet(t, parsed, cursor, end);
          return false, parsed;
        }
        LastOctet(t, parsed, cursor, end, parsed + [value]);
        cursor := end;
      }
      parsed := parsed + [value];
    }
    ok := true;
  }

  /** Accepts exactly the texts of the grammar, stores the octets they spell and otherwise leaves
      the output alone. */
  method ParseIpv4Literal(text: array?<char>, output: array?<uint8>) returns (ok: bool)
    requires text != null ==> CString(text[..])
    requires output != null ==> output.Length >= 4
    modifies output
    ensures !ok && output != null ==> output[..] == old(output[..])
    ensures text == null || output == null ==> !ok
    ensures text != null && output != null ==>
              var t := old(text[..text.Length - 1]);
              if ok then Spells(t, output[..4]) && output[4..] == old(output[4..]) else Hopeless(t)
  {
    if text == null || output == null {
      return false;
    }
    ghost var t := text[..text.Length - 1];
    if text[0] == '\0' {
      assert t == "";
      NoOctet(t, [], 0, 0);
      return false;
    }
    var parsed;
    ok, parsed := ScanOctets(text, t);
    if ok {
      forall k | 0 <= k < 4 { output[k] := parsed[k]; }
      assert output[..4] == parsed && output[4..] == old(output[4..]);
    }
  }

  lemma SameFirstOctet(t: string, k: nat, v: uint8, w: Bytes)
    requires k < |t| && SplitAt(t, k, v) && |w| > 1 && Spells(t, w)
    ensures w[0] == v && Spells(t[k + 1..], w[1..])
  {
    FirstOctet(t, k, w);
  }

  lemma SameBytes(v: Bytes, w: Bytes)
    requires |v| > 0 && |w| > 0 && v[0] == w[0] && v[1..] == w[1..]
    ensures v == w
  {
    assert v == [v[0]] + v[1..] && w == [w[0]] + w[1..];
  }

  /** The octets a text spells are determined by it. */
  lemma {:induction false} SpellsUnique(t: string, v: Bytes, w: Bytes)
    requires Spells(t, v) && Spells(t, w) && |v| == |w|
    ensures v == w
    decreases |v|
  {
    if |v| > 1 {
      var k :| 0 <= k < |t| && SplitAt(t, k, v[0]) && Spells(t[k + 1..], v[1..]);
      SameFirstOctet(t, k, v[0], w);
      SpellsUnique(t[k + 1..], v[1..], w[1..]);
    }
    SameBytes(v, w);
  }

  function DigitChar(n: nat): char
    requires n < 10
  {
    (n + '0' as int) as char
  }

  /** The canonical form of a number: no leading zeroes. */
  function Decimal(n: nat): (s: string)
    ensures s != []
  {
    if n < 10 then [DigitChar(n)] else Decimal(n / 10) + [DigitChar(n % 10)]
  }

  function Literal(v: Bytes): string
    requires |v| > 0
  {
    if |v| == 1 then Decimal(v[0]) else Decimal(v[0]) + "." + Literal(v[1..])
  }

  lemma {:induction false} DecimalValue(n: nat)
    ensures AllDigits(Decimal(n)) && Value(Decimal(n)) == n
    ensures n < 1000 ==> |Decimal(n)| == if n < 10 then 1 else if n < 100 then 2 else 3
  {
    if n >= 10 {
      DecimalValue(n / 10);
      assert Decimal(n)[..|Decimal(n)| - 1] == Decimal(n / 10);
    }
  }

  /** An octet in front of a spelled text. */
  lemma SpellsFront(a: string, rest: string, v: Bytes)
    requires |v| >= 2 && IsOctet(a, v[0]) && Spells(rest, v[1..])
    ensures Spells(a + "." + rest, v)
  {
    var t := a + "." + rest;
    assert t[..|a|] == a;
    assert t[|a|] == '.';
    assert t[|a| + 1..] == rest;
    assert SplitAt(t, |a|, v[0]);
  }

  /** Parsing inverts canonical printing. */
  lemma {:induction false} PrintedSpells(v: Bytes)
    requires |v| > 0
    ensures Spells(Literal(v), v)
    decreases |v|
  {
    DecimalValue(v[0]);
    if |v| > 1 {
      PrintedSpells(v[1..]);
      SpellsFront(Decimal(v[0]), Literal(v[1..]), v);
    }
  }

  /** And back. */
  lemma SplitFront(t: string, v: Bytes) returns (a: string, rest: string)
    requires |v| >= 2 && Spells(t, v)
    ensures t == a + "." + rest && IsOctet(a, v[0]) && Spells(rest, v[1..])
  {
    var k :| 0 <= k < |t| && SplitAt(t, k, v[0]) && Spells(t[k + 1..], v[1..]);
    a, rest := t[..k], t[k + 1..];
  }

  ghost predicate FourOctets(t: string, v: Bytes, a: string, b: string, c: string, d: string)
    requires |v| == 4
  {
    && t == a + "." + (b + "." + (c + "." + d))
    && IsOctet(a, v[0]) && IsOctet(b, v[1]) && IsOctet(c, v[2]) && IsOctet(d, v[3])
  }

  /** The grammar written out: four octets joined by three dots. */
  lemma SpellsFourOctets(t: string, v: Bytes)
    requires |v| == 4
    ensures Spells(t, v) <==> exists a, b, c, d :: FourOctets(t, v, a, b, c, d)
  {
    if Spells(t, v) {
      var a, t1 := SplitFront(t, v);
      var b, t2 := SplitFront(t1, v[1..]);
      var c, d := SplitFront(t2, v[1..][1..]);
      assert FourOctets(t, v, a, b, c, d);
    }
    if exists a, b, c, d :: FourOctets(t, v, a, b, c, d) {
      var a, b, c, d :| FourOctets(t, v, a, b, c, d);
      SpellsFront(c, d, v[2..]);
      SpellsFront(b, c + "." + d, v[1..]);
      SpellsFront(a, b + "." + (c + "." + d), v);
    }
  }
}
