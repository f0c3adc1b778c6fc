/** JSON values, their text (`json.dumps` without spaces and without ASCII escaping), and the reader that inverts it. */
module CanonicalJson {
  import opened Wrappers
  import opened Binary64
  import opened Numerals

  function SomeFloat(): (t: string)
    ensures IsRepr(t)
  {
    ZeroIsDouble();
    ReprReads(false, 0.0);
    Repr(false, 0.0)
  }

  /** A finite float, as the text `repr` gives it. */
  type FloatText = t: string | IsRepr(t) witness SomeFloat()

  datatype Json =
    | Null
    | Bool(b: bool)
    | Int(n: int)
    | Float(text: FloatText)
    | Str(s: string)
    | Arr(items: seq<Json>)
    | Obj(members: seq<Member>)

  datatype Member = Member(key: string, value: Json)

  datatype Parsed<+T> = Fail | Ok(value: T, rest: string)

  // ----- printing: each function writes its text in front of `k`

  function HexDigit(d: int): char
    requires 0 <= d < 16
  {
    if d < 10 then Digit(d) else (('a' as int) + (d - 10)) as char
  }

  /** The escapes of section 7 of RFC 8259 that `json.dumps` uses when it keeps non-ASCII text. */
  function EscapeTo(c: char, k: string): string {
    if c == '"' then ['\\', '"'] + k
    else if c == '\\' then ['\\', '\\'] + k
    else if c == '\n' then ['\\', 'n'] + k
    else if c == '\r' then ['\\', 'r'] + k
    else if c == '\t' then ['\\', 't'] + k
    else if c as int == 0x0C then ['\\', 'f'] + k
    else if c as int == 0x08 then ['\\', 'b'] + k
    else if c as int < 0x20 then ['\\', 'u', '0', '0', HexDigit(c as int / 16), HexDigit(c as int % 16)] + k
    else [c] + k
  }

  function CharsTo(s: string, k: string): string {
    if s == [] then ['"'] + k else EscapeTo(s[0], CharsTo(s[1..], k))
  }

  function PrintTo(v: Json, k: string): string
    decreases v, 1
  {
    match v
    case Null => ['n', 'u', 'l', 'l'] + k
    case Bool(b) => if b then ['t', 'r', 'u', 'e'] + k else ['f', 'a', 'l', 's', 'e'] + k
    case Int(n) => Show(Whole(n), k)
    case Float(t) => t + k
    case Str(s) => ['"'] + CharsTo(s, k)
    case Arr(items) => ['['] + (if items == [] then [']'] + k else ItemsTo(items, k))
    case Obj(members) => ['{'] + (if members == [] then ['}'] + k else MembersTo(members, k))
  }

  function ItemsTo(items: seq<Json>, k: string): string
    requires items != []
    decreases items, 0
  {
    PrintTo(items[0], if |items| == 1 then [']'] + k else [','] + ItemsTo(items[1..], k))
  }

  function MembersTo(members: seq<Member>, k: string): string
    requires members != []
    decreases members, 0
  {
    ['"'] + CharsTo(members[0].key, [':'] +
      PrintTo(members[0].value, if |members| == 1 then ['}'] + k else [','] + MembersTo(members[1..], k)))
  }

  // ----- reading

  /** The value of a numeral: an integer, or the nearest float. */
  function NumberOf(n: Numeral): (r: Option<Json>)
    requires WellFormed(n)
  {
    if IsWhole(n) then Some(Int(WholeOf(n))) else
      match Nearest(n)
      case None => None
      case Some(x) =>
        ReprReads(n.negative, x);
        Some(Float(Repr(n.negative, x)))
  }

  function HexValue(c: char): (v: int)
    ensures -1 <= v < 16
  {
    if IsDigit(c) then c as int - '0' as int else if 'a' <= c <= 'f' then c as int - 'a' as int + 10 else -1
  }

  function Unescape(c: char): Option<char> {
    if c == '"' || c == '\\' then Some(c)
    else if c == 'n' then Some('\n')
    else if c == 'r' then Some('\r')
    else if c == 't' then Some('\t')
    else if c == 'f' then Some(0x0C as char)
    else if c == 'b' then Some(0x08 as char)
    else None
  }

  /** One character, or `None` at the closing quote. */
  function CharFrom(s: string): (r: Parsed<Option<char>>)
    ensures r.Ok? ==> |r.rest| < |s|
  {
    if s == [] then Fail
    else if s[0] == '"' then Ok(None, s[1..])
    else if s[0] as int < 0x20 then Fail
    else if s[0] != '\\' then Ok(Some(s[0]), s[1..])
    else if |s| < 2 then Fail
    else if s[1] != 'u' then
      match Unescape(s[1])
      case None => Fail
      case Some(c) => Ok(Some(c), s[2..])
    else if |s| < 6 || s[2] != '0' || s[3] != '0' then Fail
    else
      var h, l := HexValue(s[4]), HexValue(s[5]);
      if h < 0 || l < 0 then Fail else Ok(Some((16 * h + l) as char), s[6..])
  }

  function CharsFrom(s: string): (r: Parsed<string>)
    ensures r.Ok? ==> |r.rest| < |s|
    decreases |s|
  {
    match CharFrom(s)
    case Fail => Fail
    case Ok(None, rest) => Ok([], rest)
    case Ok(Some(c), rest) =>
      match CharsFrom(rest)
      case Fail => Fail
      case Ok(cs, rest') => Ok([c] + cs, rest')
  }

  function ParseValue(s: string): (r: Parsed<Json>)
    ensures r.Ok? ==> |r.rest| < |s|
    decreases |s|, 1
  {
    if s == [] then Fail
    else if s[0] == 'n' then if |s| >= 4 && s[1..4] == ['u', 'l', 'l'] then Ok(Null, s[4..]) else Fail
    else if s[0] == 't' then if |s| >= 4 && s[1..4] == ['r', 'u', 'e'] then Ok(Bool(true), s[4..]) else Fail
    else if s[0] == 'f' then if |s| >= 5 && s[1..5] == ['a', 'l', 's', 'e'] then Ok(Bool(false), s[5..]) else Fail
    else if s[0] == '-' || IsDigit(s[0]) then
      (match Scan(s)
       case None => Fail
       case Some(scanned) =>
         match NumberOf(scanned.value)
         case None => Fail
         case Some(v) => Ok(v, scanned.rest))
    else if s[0] == '"' then
      (match CharsFrom(s[1..])
       case Fail => Fail
       case Ok(t, rest) => Ok(Str(t), rest))
    else if s[0] == '[' then
      if |s| >= 2 && s[1] == ']' then Ok(Arr([]), s[2..]) else
        (match ParseItems(s[1..])
         case Fail => Fail
         case Ok(items, rest) => Ok(Arr(items), rest))
    else if s[0] == '{' then
      if |s| >= 2 && s[1] == '}' then Ok(Obj([]), s[2..]) else
        (match ParseMembers(s[1..])
         case Fail => Fail
         case Ok(members, rest) => Ok(Obj(members), rest))
    else Fail
  }

  function ParseItems(s: string): (r: Parsed<seq<Json>>)
    ensures r.Ok? ==> |r.rest| < |s|
    decreases |s|, 2
  {
    match ParseValue(s)
    case Fail => Fail
    case Ok(v, rest) =>
      if rest == [] then Fail
      else if rest[0] == ']' then Ok([v], rest[1..])
      else if rest[0] != ',' then Fail
      else
        match ParseItems(rest[1..])
        case Fail => Fail
        case Ok(vs, rest') => Ok([v] + vs, rest')
  }

  function ParseMembers(s: string): (r: Parsed<seq<Member>>)
    ensures r.Ok? ==> |r.rest| < |s|
    decreases |s|, 2
  {
    if s == [] || s[0] != '"' then Fail else
      match CharsFrom(s[1..])
      case Fail => Fail
      case Ok(key, afterKey) =>
        if afterKey == [] || afterKey[0] != ':' then Fail else
          match ParseValue(afterKey[1..])
          case Fail => Fail
          case Ok(v, rest) =>
            if rest == [] then Fail
            else if rest[0] == '}' then Ok([Member(key, v)], rest[1..])
            else if rest[0] != ',' then Fail
            else
              match ParseMembers(rest[1..])
              case Fail => Fail
              case Ok(ms, rest') => Ok([Member(key, v)] + ms, rest')
  }

  // ----- reading inverts printing

  lemma CharRoundTrip(c: char, k: string)
    ensures CharFrom(EscapeTo(c, k)) == Ok(Some(c), k)
  {
    var t := EscapeTo(c, k);
    if |t| == |k| + 1 {
      assert t[1..] == k;
    } else if |t| == |k| + 2 {
      assert t[2..] == k;
    } else {
      assert t[6..] == k;
    }
  }

  /** Of all texts read as a character, the one written is the shortest: nothing is escaped that need not be. */
  lemma EscapeIsShortest(c: char, t: string)
    requires CharFrom(t) == Ok(Some(c), [])
    ensures t == EscapeTo(c, []) || |EscapeTo(c, [])| < |t|
  {
    if t[0] != '\\' {
      assert t == [t[0]] + t[1..];
    } else if t[1] != 'u' {
      assert t == [t[0], t[1]] + t[2..];
    } else {
      assert t == [t[0], t[1], t[2], t[3], t[4], t[5]] + t[6..];
    }
  }

  lemma {:induction false} CharsRoundTrip(s: string, k: string)
    ensures CharsFrom(CharsTo(s, k)) == Ok(s, k)
  {
    if s == [] {
      assert CharsTo(s, k)[1..] == k;
    } else {
      CharsRoundTrip(s[1..], k);
      CharRoundTrip(s[0], CharsTo(s[1..], k));
      assert s == [s[0]] + s[1..];
    }
  }

  lemma WholeStart(n: int, k: string)
    ensures Show(Whole(n), k) != [] && (Show(Whole(n), k)[0] == '-' || IsDigit(Show(Whole(n), k)[0]))
  {
  }

  lemma FloatStart(t: FloatText)
    ensures t != [] && (t[0] == '-' || IsDigit(t[0]))
  {
    hide Nearest, Repr;
    var n := Scan(t).value.value;
    assert t[0] != '-' ==> Span(t) > 0;
  }

  lemma FirstCharacter(v: Json, k: string)
    ensures PrintTo(v, k) != [] && PrintTo(v, k)[0] != ']'
  {
    hide Show, IsRepr;
    match v
    case Int(n) => WholeStart(n, k);
    case Float(t) => FloatStart(t);
    case _ =>
  }

  lemma IntRoundTrip(n: int, k: string)
    requires Delimits(k)
    ensures ParseValue(PrintTo(Int(n), k)) == Ok(Int(n), k)
  {
    hide Show, Scan, Whole, CharsFrom, ParseItems, ParseMembers;
    WholeStart(n, k);
    WholeReads(n);
    NumeralReads(Whole(n), k);
  }

  lemma FloatRoundTrip(t: FloatText, k: string)
    requires Delimits(k)
    ensures ParseValue(PrintTo(Float(t), k)) == Ok(Float(t), k)
  {
    hide Show, Scan, IsRepr, Shown, Nearest, CharsFrom, ParseItems, ParseMembers;
    FloatStart(t);
    FloatScans(t, k);
  }

  /** A float's text is read as itself. */
  lemma FloatScans(t: FloatText, k: string)
    requires Delimits(k)
    ensures Scan(t + k).Some?
    ensures Scan(t + k).value.rest == k && NumberOf(Scan(t + k).value.value) == Some(Float(t))
  {
    hide Show, Scan, Shown, Nearest, WellFormed;
    var n := Scan(t).value.value;
    var x := Nearest(n).value;
    ReprReads(n.negative, x);
    ShownReads(n.negative, x);
    NumeralReads(Shown(n.negative, x), k);
    assert Show(Shown(n.negative, x), k) == t + k by { ShowAppends(Shown(n.negative, x), k); }
  }

  lemma ShowAppends(n: Numeral, k: string)
    ensures Show(n, k) == Show(n, []) + k
  {
    assert ShowExponent(n.exponent, k) == ShowExponent(n.exponent, []) + k;
    var a, b := ShowExponent(n.exponent, []), ShowExponent(n.exponent, k);
    assert ShowFraction(n.fraction, b) == ShowFraction(n.fraction, a) + k;
  }

  lemma WordRoundTrip(v: Json, k: string)
    requires v.Null? || v.Bool?
    ensures ParseValue(PrintTo(v, k)) == Ok(v, k)
  {
    hide Scan, NumberOf, CharsFrom, ParseItems, ParseMembers;
    var t := PrintTo(v, k);
    match v
    case Null => assert t[1..4] == ['u', 'l', 'l'] && t[4..] == k;
    case Bool(b) =>
      if b {
        assert t[1..4] == ['r', 'u', 'e'] && t[4..] == k;
      } else {
        assert t[1..5] == ['a', 'l', 's', 'e'] && t[5..] == k;
      }
  }

  /** Every value's text is self-delimiting: reading it back gives the value and what followed it. */
  lemma {:induction false} ParsePrint(v: Json, k: string)
    requires Delimits(k)
    ensures ParseValue(PrintTo(v, k)) == Ok(v, k)
    decreases v, 1
  {
    hide Scan, NumberOf, Show, CharsFrom, CharsTo, ParseItems, ParseMembers, ItemsTo, MembersTo;
    var t := PrintTo(v, k);
    match v
    case Null => WordRoundTrip(v, k);
    case Bool(_) => WordRoundTrip(v, k);
    case Int(n) => IntRoundTrip(n, k);
    case Float(f) => FloatRoundTrip(f, k);
    case Str(s) =>
      CharsRoundTrip(s, k);
      assert t[1..] == CharsTo(s, k);
    case Arr(items) =>
      if items == [] {
        assert t[2..] == k;
      } else {
        ItemsRoundTrip(items, k);
        assert t[1..] == ItemsTo(items, k);
      }
    case Obj(members) =>
      if members == [] {
        assert t[2..] == k;
      } else {
        MembersRoundTrip(members, k);
        assert t[1..] == MembersTo(members, k);
      }
  }

  lemma {:induction false} ItemsRoundTrip(items: seq<Json>, k: string)
    requires items != []
    ensures ParseItems(ItemsTo(items, k)) == Ok(items, k)
    ensures ItemsTo(items, k)[..1] != [']'] && ItemsTo(items, k) != []
    decreases items, 0
  {
    hide PrintTo, ParseValue;
    var rest := if |items| == 1 then [']'] + k else [','] + ItemsTo(items[1..], k);
    ParsePrint(items[0], rest);
    FirstCharacter(items[0], rest);
    if |items| == 1 {
      assert rest[1..] == k;
      assert items == [items[0]];
    } else {
      ItemsRoundTrip(items[1..], k);
      assert rest[1..] == ItemsTo(items[1..], k);
      assert items == [items[0]] + items[1..];
    }
  }

  /** Reading one member and what follows it. */
  lemma MemberRead(t: string, key: string, afterKey: string, value: Json, rest: string)
    requires t != [] && t[0] == '"' && CharsFrom(t[1..]) == Ok(key, afterKey)
    requires afterKey != [] && afterKey[0] == ':' && ParseValue(afterKey[1..]) == Ok(value, rest)
    requires rest != [] && (rest[0] == '}' || rest[0] == ',')
    ensures ParseMembers(t) ==
      if rest[0] == '}' then Ok([Member(key, value)], rest[1..])
      else match ParseMembers(rest[1..])
        case Fail => Fail
        case Ok(ms, rest') => Ok([Member(key, value)] + ms, rest')
  {
    hide CharsFrom, ParseValue;
  }

  lemma {:induction false} MembersRoundTrip(members: seq<Member>, k: string)
    requires members != []
    ensures ParseMembers(MembersTo(members, k)) == Ok(members, k)
    ensures MembersTo(members, k) != [] && MembersTo(members, k)[0] == '"'
    decreases members, 0
  {
    hide PrintTo, ParseValue, CharsTo, CharsFrom, ParseMembers;
    var key, value := members[0].key, members[0].value;
    var rest := if |members| == 1 then ['}'] + k else [','] + MembersTo(members[1..], k);
    var afterKey := [':'] + PrintTo(value, rest);
    var t := MembersTo(members, k);
    assert t == ['"'] + CharsTo(key, afterKey);
    CharsRoundTrip(key, afterKey);
    assert t[1..] == CharsTo(key, afterKey) && afterKey[1..] == PrintTo(value, rest);
    ParsePrint(value, rest);
    MemberRead(t, key, afterKey, value, rest);
    if |members| == 1 {
      assert rest[1..] == k && members == [members[0]];
    } else {
      MembersRoundTrip(members[1..], k);
      assert rest[1..] == MembersTo(members[1..], k) && members == [members[0]] + members[1..];
    }
  }
}
