/** The parser of the first element of a Forwarded header, and a printer that it undoes. */
module Forwarded {
  import opened Text

  // ---------------------------------------------------------------------------------------------
  // Character classes

  /** White space in the Unicode sense. */
  predicate IsSpace(c: char) {
    var n := c as int;
    9 <= n <= 13 || n == 32 || n == 0x85 || n == 0xA0 || n == 0x1680 || 0x2000 <= n <= 0x200A ||
    n == 0x2028 || n == 0x2029 || n == 0x202F || n == 0x205F || n == 0x3000
  }

  predicate IsTokenChar(c: char) {
    && c !in "\"(),/:;<=>?@[]{}"
    && c as int > 32 && c as int != 127
  }

  /** The characters that may follow a backslash: blanks and visible ASCII. */
  predicate IsEscapable(c: char) {
    c == '\t' || 32 <= c as int <= 126
  }

  predicate IsPlain(c: char) {
    c != '\\' && c != '"'
  }

  function TrimLeft(s: string): (r: string)
    ensures |r| <= |s| && (r == "" || !IsSpace(r[0]))
  {
    if s != "" && IsSpace(s[0]) then TrimLeft(s[1..]) else s
  }

  /** The length of the longest prefix of token characters. */
  function TokenLength(s: string): (n: nat)
    ensures n <= |s| && (forall i :: 0 <= i < n ==> IsTokenChar(s[i])) && (n < |s| ==> !IsTokenChar(s[n]))
  {
    Span(s, IsTokenChar)
  }

  /** The length of the longest prefix without a backslash or a quote. */
  function PlainLength(s: string): (n: nat)
    ensures n <= |s| && (forall i :: 0 <= i < n ==> IsPlain(s[i])) && (n < |s| ==> !IsPlain(s[n]))
  {
    Span(s, IsPlain)
  }

  // ---------------------------------------------------------------------------------------------
  // The parser, one turn of its loop at a time

  datatype State = Element | Parameter | KeyValueDelimiter | Value | QuotedValue | EscapedCharacter | PairEnd

  datatype Problem = UnexpectedEnd | BadToken | NoDelimiter | BadValue | Duplicate | Unterminated |
    BadEscape | NoSeparator

  datatype Machine = Machine(parse: string, state: State, parameter: string, value: string, res: map<string, string>)

  datatype Turn =
    | Next(m: Machine)
    | Done(res: map<string, string>, rest: string)
    | Failed(problem: Problem, rest: string)

  function Skip(m: Machine): (p: string)
    ensures |p| <= |m.parse|
  {
    if m.state.QuotedValue? || m.state.EscapedCharacter? then m.parse else TrimLeft(m.parse)
  }

  /** States that do not consume input come before those they lead to. */
  function Rank(s: State): nat {
    match s
    case PairEnd => 2
    case Element => 1
    case _ => 0
  }

  function TakeTurn(m: Machine): (t: Turn)
    ensures t.Next? ==> |t.m.parse| < |m.parse| || (|t.m.parse| == |m.parse| && Rank(t.m.state) < Rank(m.state))
  {
    TurnOn(m.(parse := Skip(m)))
  }

  /** The turn once white space is skipped. */
  function TurnOn(m: Machine): (t: Turn)
    ensures t.Next? ==> |t.m.parse| < |m.parse| || (|t.m.parse| == |m.parse| && Rank(t.m.state) < Rank(m.state))
  {
    var p := m.parse;
    if p == "" then
      if m.state.Element? || m.state.PairEnd? || m.state.Parameter? then Done(m.res, p) else Failed(UnexpectedEnd, p)
    else
      match m.state
      case Element => if p[0] == ',' then Done(m.res, p[1..]) else Next(m.(parse := p, state := Parameter))
      case Parameter =>
        var n := TokenLength(p);
        if n == 0 then Failed(BadToken, p)
        else Next(m.(parse := p[n..], parameter := LowerAll(p[..n]), state := KeyValueDelimiter))
      case KeyValueDelimiter =>
        if p[0] != '=' then Failed(NoDelimiter, p) else Next(m.(parse := p[1..], state := Value))
      case Value =>
        if p[0] == '"' then Next(m.(parse := p[1..], state := QuotedValue))
        else
          var n := TokenLength(p);
          if n == 0 then Failed(BadValue, p)
          else if m.parameter in m.res then Failed(Duplicate, p)
          else Next(m.(parse := p[n..], res := m.res[m.parameter := p[..n]], value := "", state := PairEnd))
      case QuotedValue =>
        var n := PlainLength(p);
        var v, q := m.value + p[..n], p[n..];
        if q == "" then Failed(Unterminated, q)
        else if q[0] == '"' then
          Next(m.(parse := q[1..], res := m.res[m.parameter := v], value := "", state := PairEnd))
        else Next(m.(parse := q[1..], value := v, state := EscapedCharacter))
      case EscapedCharacter =>
        if !IsEscapable(p[0]) then Failed(BadEscape, p)
        else Next(m.(parse := p[1..], value := m.value + [p[0]], state := QuotedValue))
      case PairEnd =>
        if p[0] == ';' then Next(m.(parse := p[1..], state := Parameter))
        else if p[0] == ',' then Next(m.(parse := p, state := Element))
        else Failed(NoSeparator, p)
  }

  datatype Result = Parsed(res: map<string, string>, rest: string) | Bad(problem: Problem, rest: string)

  function ParseFrom(m: Machine): Result
    decreases |m.parse|, Rank(m.state)
  {
    match TakeTurn(m)
    case Next(m') => ParseFrom(m')
    case Done(res, rest) => Parsed(res, rest)
    case Failed(problem, rest) => Bad(problem, rest)
  }

  function Parse(forwarded: string): Result {
    ParseFrom(Machine(forwarded, Element, "", "", map[]))
  }

  /** The loop as it runs. It terminates because every turn shortens the input or, keeping it, moves to a
      state of lower rank. */
  method ParseForwardedHeader(forwarded: string) returns (r: Result)
    ensures r == Parse(forwarded)
  {
    var parse, state, parameter, value := forwarded, Element, "", "";
    var res: map<string, string> := map[];
    while true
      invariant Parse(forwarded) == ParseFrom(Machine(parse, state, parameter, value, res))
      decreases |parse|, Rank(state)
    {
      ghost var m := Machine(parse, state, parameter, value, res);
      if state != QuotedValue && state != EscapedCharacter {
        parse := TrimLeft(parse);
      }
      if parse == "" {
        if state != Element && state != PairEnd && state != Parameter {
          return Bad(UnexpectedEnd, parse);
        }
        return Parsed(res, parse);
      }
      match state {
        case Element =>
          if parse[0] == ',' {
            return Parsed(res, parse[1..]);
          }
          state := Parameter;
        case Parameter =>
          var n := TokenLength(parse);
          if n == 0 {
            return Bad(BadToken, parse);
          }
          parameter := LowerAll(parse[..n]);
          parse := parse[n..];
          state := KeyValueDelimiter;
        case KeyValueDelimiter =>
          if parse[0] != '=' {
            return Bad(NoDelimiter, parse);
          }
          parse := parse[1..];
          state := Value;
        case Value =>
          if parse[0] == '"' {
            parse := parse[1..];
            state := QuotedValue;
          } else {
            var n := TokenLength(parse);
            value := parse[..n];
            if n == 0 {
              return Bad(BadValue, parse);
            }
            if parameter in res {
              return Bad(Duplicate, parse);
            }
            res := res[parameter := value];
            parse := parse[n..];
            value := "";
            state := PairEnd;
          }
        case QuotedValue =>
          var n := PlainLength(parse);
          value := value + parse[..n];
          parse := parse[n..];
          if parse == "" {
            return Bad(Unterminated, parse);
          }
          if parse[0] == '"' {
            res := res[parameter := value];
            value := "";
            parse := parse[1..];
            state := PairEnd;
          } else {
            parse := parse[1..];
            state := EscapedCharacter;
          }
        case EscapedCharacter =>
          if !IsEscapable(parse[0]) {
            return Bad(BadEscape, parse);
          }
          value := value + [parse[0]];
          parse := parse[1..];
          state := QuotedValue;
        case PairEnd =>
          if parse[0] == ';' {
            parse := parse[1..];
            state := Parameter;
          } else if parse[0] == ',' {
            state := Element;
          } else {
            return Bad(NoSeparator, parse);
          }
      }
      assert TakeTurn(m) == Next(Machine(parse, state, parameter, value, res));
    }
  }

  // ---------------------------------------------------------------------------------------------
  // The grammar of a first element, as a printer

  datatype Value = Bare(token: string) | Quoted(items: seq<Item>)

  /** A parameter with the white space before its key, before and after the sign, and after its value. */
  datatype Pair = Pair(lead: string, key: string, gap: string, pad: string, value: Value, trail: string)

  /** What ends the element: the input, the next element of the list, or a semicolon with nothing but space after. */
  datatype Tail = End | Comma(rest: string) | Semicolon(space: string)

  predicate Spaces(s: string) {
    forall i :: 0 <= i < |s| ==> IsSpace(s[i])
  }

  /** White space that ends a token before it. */
  predicate Apart(s: string) {
    Spaces(s) && (s == "" || !IsTokenChar(s[0]))
  }

  predicate IsToken(s: string) {
    s != "" && !IsSpace(s[0]) && forall i :: 0 <= i < |s| ==> IsTokenChar(s[i])
  }

  predicate ProperItem(x: Item) {
    if x.escaped then IsEscapable(x.c) else IsPlain(x.c)
  }

  predicate Proper(p: Pair) {
    && Spaces(p.lead) && IsToken(p.key) && Apart(p.gap) && Spaces(p.pad) && Spaces(p.trail)
    && (p.value.Bare? ==> IsToken(p.value.token) && Apart(p.trail))
    && (p.value.Quoted? ==> forall i :: 0 <= i < |p.value.items| ==> ProperItem(p.value.items[i]))
  }

  /** A list of parameters and how it ends. */
  predicate ProperElement(pairs: seq<Pair>, tail: Tail) {
    && (forall i :: 0 <= i < |pairs| ==> Proper(pairs[i]))
    && (tail.Semicolon? ==> pairs != [] && Spaces(tail.space))
  }

  function PrintValue(v: Value): string {
    if v.Bare? then v.token else "\"" + (PrintItems(v.items) + "\"")
  }

  function PrintPair(p: Pair): string {
    p.lead + (p.key + (p.gap + ("=" + (p.pad + (PrintValue(p.value) + p.trail)))))
  }

  function PrintTail(tail: Tail): string {
    match tail
    case End => ""
    case Comma(rest) => "," + rest
    case Semicolon(space) => ";" + space
  }

  function Print(pairs: seq<Pair>, tail: Tail): string
    decreases |pairs|, 1
  {
    if pairs == [] then PrintTail(tail) else PrintPair(pairs[0]) + After(pairs, tail)
  }

  /** What follows the first parameter. */
  function After(pairs: seq<Pair>, tail: Tail): string
    requires pairs != []
    decreases |pairs|, 0
  {
    if |pairs| == 1 then PrintTail(tail) else ";" + Print(pairs[1..], tail)
  }

  function Rest(tail: Tail): string {
    if tail.Comma? then tail.rest else ""
  }

  function Name(p: Pair): string {
    LowerAll(p.key)
  }

  function ValueText(v: Value): string {
    if v.Bare? then v.token else ItemText(v.items)
  }

  /** The parameters the pairs stand for; a later pair wins. */
  function Meaning(res: map<string, string>, pairs: seq<Pair>): map<string, string>
    decreases |pairs|
  {
    if pairs == [] then res else Meaning(res[Name(pairs[0]) := ValueText(pairs[0].value)], pairs[1..])
  }

  /** An unquoted value for a parameter that is there already. */
  predicate Repeats(res: map<string, string>, pairs: seq<Pair>)
    decreases |pairs|
  {
    pairs != [] &&
    ((pairs[0].value.Bare? && Name(pairs[0]) in res) ||
     Repeats(res[Name(pairs[0]) := ValueText(pairs[0].value)], pairs[1..]))
  }

  // ---------------------------------------------------------------------------------------------
  // White space

  lemma {:induction false} TrimSpaces(sp: string, t: string)
    requires Spaces(sp)
    ensures TrimLeft(sp + t) == TrimLeft(t)
    decreases |sp|
  {
    if sp == "" {
      assert sp + t == t;
    } else {
      assert (sp + t)[0] == sp[0] && (sp + t)[1..] == sp[1..] + t;
      TrimSpaces(sp[1..], t);
    }
  }

  /** Outside of quotes, leading white space makes no difference. */
  lemma {:induction false} SpaceIsSkipped(m: Machine, sp: string, t: string)
    requires Spaces(sp) && m.parse == sp + t && !m.state.QuotedValue? && !m.state.EscapedCharacter?
    ensures ParseFrom(m) == ParseFrom(m.(parse := t))
  {
    TrimSpaces(sp, t);
    SameInput(m, m.(parse := t));
    SameTurn(m, m.(parse := t));
  }

  lemma SameInput(a: Machine, b: Machine)
    requires b == a.(parse := b.parse) && Skip(a) == Skip(b)
    ensures TakeTurn(a) == TakeTurn(b)
  {
  }

  lemma {:induction false} SameTurn(a: Machine, b: Machine)
    requires TakeTurn(a) == TakeTurn(b)
    ensures ParseFrom(a) == ParseFrom(b)
  {
  }

  /** The white space that a text begins with, and the rest. */
  lemma {:induction false} LeadingSpace(s: string) returns (sp: string)
    ensures Spaces(sp) && s == sp + TrimLeft(s)
    ensures s != "" && !IsTokenChar(s[0]) ==> Apart(sp)
    decreases |s|
  {
    if s != "" && IsSpace(s[0]) {
      var rest := LeadingSpace(s[1..]);
      sp := [s[0]] + rest;
    } else {
      sp := "";
    }
  }

  // ---------------------------------------------------------------------------------------------
  // Quoted values, character by character

  lemma {:induction false} PlainStep(m: Machine, c: char, t: string)
    requires m.state == QuotedValue && IsPlain(c) && m.parse == [c] + t
    ensures t == "" ==> ParseFrom(m).Bad?
    ensures t != "" ==> ParseFrom(m) == ParseFrom(m.(parse := t, value := m.value + [c]))
  {
    var m', n := m.(parse := t, value := m.value + [c]), PlainLength(t);
    assert m.parse[1..] == t && PlainLength(m.parse) == n + 1;
    assert m.parse[..n + 1] == [c] + t[..n] && m.parse[n + 1..] == t[n..];
    assert m.value + ([c] + t[..n]) == (m.value + [c]) + t[..n];
    if t != "" {
      assert TakeTurn(m) == TakeTurn(m');
      SameTurn(m, m');
    }
  }

  lemma BackslashTurn(m: Machine, t: string)
    requires m.state == QuotedValue && m.parse == ['\\'] + t
    ensures TakeTurn(m) == Next(m.(parse := t, state := EscapedCharacter))
  {
    assert m.parse[1..] == t && PlainLength(m.parse) == 0 && m.value + m.parse[..0] == m.value;
  }

  lemma EscapedTurn(m: Machine, c: char, t: string)
    requires m.state == EscapedCharacter && m.parse == [c] + t
    ensures TakeTurn(m) ==
      if IsEscapable(c) then Next(m.(parse := t, value := m.value + [c], state := QuotedValue))
      else Failed(BadEscape, m.parse)
  {
    assert m.parse[0] == c && m.parse[1..] == t;
  }

  lemma {:induction false} EscapedStep(m: Machine, c: char, t: string)
    requires m.state == QuotedValue && m.parse == ['\\', c] + t
    ensures IsEscapable(c) ==> ParseFrom(m) == ParseFrom(m.(parse := t, value := m.value + [c]))
    ensures !IsEscapable(c) ==> ParseFrom(m).Bad?
  {
    var m1 := m.(parse := [c] + t, state := EscapedCharacter);
    assert m.parse == ['\\'] + m1.parse;
    BackslashTurn(m, m1.parse);
    Turned(m, m1);
    EscapedCharacterStep(m1, c, t);
  }

  lemma {:induction false} EscapedCharacterStep(m: Machine, c: char, t: string)
    requires m.state == EscapedCharacter && m.parse == [c] + t
    ensures IsEscapable(c) ==> ParseFrom(m) == ParseFrom(m.(parse := t, value := m.value + [c], state := QuotedValue))
    ensures !IsEscapable(c) ==> ParseFrom(m).Bad?
  {
    EscapedTurn(m, c, t);
  }

  lemma {:induction false} Turned(m: Machine, next: Machine)
    requires TakeTurn(m) == Next(next)
    ensures ParseFrom(m) == ParseFrom(next)
  {
  }

  lemma ClosingStep(m: Machine, t: string)
    requires m.state == QuotedValue && m.parse == "\"" + t
    ensures ParseFrom(m) == ParseFrom(Machine(t, PairEnd, m.parameter, "", m.res[m.parameter := m.value]))
  {
    assert m.parse[1..] == t && PlainLength(m.parse) == 0 && m.value + m.parse[..0] == m.value;
    assert TakeTurn(m) == Next(Machine(t, PairEnd, m.parameter, "", m.res[m.parameter := m.value]));
  }

  /** Inside a quoted value: the text is read back whatever it is, and however it is escaped. */
  lemma {:induction false} QuotedRoundTrip(m: Machine, items: seq<Item>, t: string)
    requires m.state == QuotedValue && m.parse == PrintItems(items) + ("\"" + t)
    requires forall i :: 0 <= i < |items| ==> ProperItem(items[i])
    ensures ParseFrom(m) ==
      ParseFrom(Machine(t, PairEnd, m.parameter, "", m.res[m.parameter := m.value + ItemText(items)]))
    decreases |items|
  {
    if items == [] {
      assert m.parse == "\"" + t && m.value + "" == m.value;
      ClosingStep(m, t);
    } else {
      var rest := PrintItems(items[1..]) + ("\"" + t);
      FirstItem(items, "\"" + t);
      ItemStep(m, items[0], rest);
      QuotedRoundTrip(m.(parse := rest, value := m.value + [items[0].c]), items[1..], t);
      TextApart(m.value, items);
    }
  }

  lemma {:induction false} TextApart(v: string, items: seq<Item>)
    requires items != []
    ensures v + [items[0].c] + ItemText(items[1..]) == v + ItemText(items)
  {
  }

  lemma {:induction false} ItemStep(m: Machine, x: Item, t: string)
    requires m.state == QuotedValue && ProperItem(x) && t != ""
    requires m.parse == (if x.escaped then ['\\', x.c] else [x.c]) + t
    ensures ParseFrom(m) == ParseFrom(m.(parse := t, value := m.value + [x.c]))
  {
    if x.escaped { EscapedStep(m, x.c, t); } else { PlainStep(m, x.c, t); }
  }

  /** And only such text is read: a quoted value that does not fail is a list of proper characters and a quote. */
  lemma {:induction false} QuotedIsPrinted(m: Machine) returns (items: seq<Item>, t: string)
    requires m.state == QuotedValue && ParseFrom(m).Parsed?
    ensures m.parse == PrintItems(items) + ("\"" + t) && forall i :: 0 <= i < |items| ==> ProperItem(items[i])
    decreases |m.parse|
  {
    var s := m.parse;
    if s != "" && s[0] == '"' {
      items, t := [], s[1..];
      assert s == "" + ("\"" + t);
    } else if s != "" && s[0] == '\\' {
      if |s| == 1 { LoneBackslash(m); }
      assert s == ['\\', s[1]] + s[2..];
      EscapedStep(m, s[1], s[2..]);
      items, t := QuotedIsPrinted(m.(parse := s[2..], value := m.value + [s[1]]));
      items := MoreItems(Item(s[1], true), items, s, t);
    } else {
      assert s == "" ==> TakeTurn(m).Failed?;
      assert s == [s[0]] + s[1..];
      PlainStep(m, s[0], s[1..]);
      items, t := QuotedIsPrinted(m.(parse := s[1..], value := m.value + [s[0]]));
      items := MoreItems(Item(s[0], false), items, s, t);
    }
  }

  lemma {:induction false} LoneBackslash(m: Machine)
    requires m.state == QuotedValue && m.parse == ['\\']
    ensures ParseFrom(m).Bad?
  {
    assert m.parse == ['\\'] + "";
    BackslashTurn(m, "");
    assert TakeTurn(m.(parse := "", state := EscapedCharacter)).Failed?;
  }

  lemma MoreItems(x: Item, items: seq<Item>, s: string, t: string) returns (all: seq<Item>)
    requires ProperItem(x) && forall i :: 0 <= i < |items| ==> ProperItem(items[i])
    requires s == (if x.escaped then ['\\', x.c] else [x.c]) + (PrintItems(items) + ("\"" + t))
    ensures all == [x] + items && s == PrintItems(all) + ("\"" + t)
    ensures forall i :: 0 <= i < |all| ==> ProperItem(all[i])
  {
    all := [x] + items;
    FirstItem(all, "\"" + t);
    assert all[1..] == items;
  }

  // ---------------------------------------------------------------------------------------------
  // The round trip

  lemma TokenStops(k: string, t: string)
    requires (forall i :: 0 <= i < |k| ==> IsTokenChar(k[i])) && (t == "" || !IsTokenChar(t[0]))
    ensures TokenLength(k + t) == |k|
  {
    SpanStops(k, t, IsTokenChar);
  }

  lemma {:induction false} NothingToTrim(k: string, t: string)
    requires k != "" && !IsSpace(k[0])
    ensures TrimLeft(k + t) == k + t
  {
    assert (k + t)[0] == k[0];
  }

  lemma CutAt(k: string, t: string)
    ensures (k + t)[..|k|] == k && (k + t)[|k|..] == t
  {
  }

  lemma {:induction false} KeyTurn(m: Machine, key: string, t: string)
    requires m.state == Parameter && IsToken(key) && m.parse == key + t && (t == "" || !IsTokenChar(t[0]))
    ensures ParseFrom(m) == ParseFrom(m.(parse := t, parameter := LowerAll(key), state := KeyValueDelimiter))
  {
    NothingToTrim(key, t);
    TokenStops(key, t);
    CutAt(key, t);
    assert TakeTurn(m) == Next(m.(parse := t, parameter := LowerAll(key), state := KeyValueDelimiter));
  }

  lemma {:induction false} SignTurn(m: Machine, t: string)
    requires m.state == KeyValueDelimiter && m.parse == "=" + t
    ensures ParseFrom(m) == ParseFrom(m.(parse := t, state := Value))
  {
    assert TrimLeft(m.parse) == m.parse && m.parse[1..] == t;
    assert TakeTurn(m) == Next(m.(parse := t, state := Value));
  }

  lemma {:induction false} OpeningTurn(m: Machine, t: string)
    requires m.state == Value && m.parse == "\"" + t
    ensures ParseFrom(m) == ParseFrom(m.(parse := t, state := QuotedValue))
  {
    assert TrimLeft(m.parse) == m.parse && m.parse[1..] == t;
    assert TakeTurn(m) == Next(m.(parse := t, state := QuotedValue));
  }

  lemma BareTurn(m: Machine, v: string, t: string)
    requires m.state == Value && IsToken(v) && m.parse == v + t && (t == "" || !IsTokenChar(t[0]))
    ensures ParseFrom(m) ==
      if m.parameter in m.res then Bad(Duplicate, v + t)
      else ParseFrom(Machine(t, PairEnd, m.parameter, "", m.res[m.parameter := v]))
  {
    assert m.parse[0] == v[0] && IsTokenChar(v[0]);
    NothingToTrim(v, t);
    TokenStops(v, t);
    CutAt(v, t);
  }

  lemma {:induction false} SeparatorTurn(m: Machine, t: string)
    requires m.state == PairEnd && m.parse == ";" + t
    ensures ParseFrom(m) == ParseFrom(m.(parse := t, state := Parameter))
  {
    assert TrimLeft(m.parse) == m.parse && m.parse[1..] == t;
    assert TakeTurn(m) == Next(m.(parse := t, state := Parameter));
  }

  /** From the key to the value, white space included. */
  lemma {:induction false} KeyTurns(m: Machine, lead: string, key: string, gap: string, pad: string, t: string)
    requires m.state == Parameter && Spaces(lead) && IsToken(key) && Apart(gap) && Spaces(pad)
    requires m.parse == lead + (key + (gap + ("=" + (pad + t))))
    ensures ParseFrom(m) == ParseFrom(m.(parse := t, parameter := LowerAll(key), state := Value))
  {
    var afterPad := "=" + (pad + t);
    var afterKey := gap + afterPad;
    SpaceIsSkipped(m, lead, key + afterKey);
    assert afterKey[0] == if gap == "" then '=' else gap[0];
    KeyTurn(m.(parse := key + afterKey), key, afterKey);
    var m1 := m.(parse := afterKey, parameter := LowerAll(key), state := KeyValueDelimiter);
    SpaceIsSkipped(m1, gap, afterPad);
    SignTurn(m1.(parse := afterPad), pad + t);
    SpaceIsSkipped(m1.(parse := pad + t, state := Value), pad, t);
  }

  /** The value and the white space after it. */
  lemma ValueTurns(m: Machine, v: Value, trail: string, t: string)
    requires m.state == Value && m.value == "" && m.parse == PrintValue(v) + (trail + t) && Spaces(trail)
    requires v.Bare? ==> IsToken(v.token) && Apart(trail)
    requires v.Quoted? ==> forall i :: 0 <= i < |v.items| ==> ProperItem(v.items[i])
    requires t == "" || t[0] == ';' || t[0] == ','
    ensures ParseFrom(m) ==
      if v.Bare? && m.parameter in m.res then Bad(Duplicate, v.token + (trail + t))
      else ParseFrom(Machine(t, PairEnd, m.parameter, "", m.res[m.parameter := ValueText(v)]))
  {
    var after := trail + t;
    var end := Machine(after, PairEnd, m.parameter, "", m.res[m.parameter := ValueText(v)]);
    if v.Bare? {
      assert after == "" || after[0] == if trail == "" then t[0] else trail[0];
      BareTurn(m, v.token, after);
    } else {
      var inner := PrintItems(v.items) + ("\"" + after);
      assert m.parse == "\"" + inner;
      OpeningTurn(m, inner);
      QuotedRoundTrip(m.(parse := inner, state := QuotedValue), v.items, after);
      assert "" + ItemText(v.items) == ItemText(v.items);
    }
    SpaceIsSkipped(end, trail, t);
  }

  lemma PairApart(p: Pair, t: string)
    ensures PrintPair(p) + t == p.lead + (p.key + (p.gap + ("=" + (p.pad + (PrintValue(p.value) + (p.trail + t))))))
  {
  }

  /** One parameter. A bare value for a known one is refused. */
  lemma PairRoundTrip(m: Machine, p: Pair, t: string)
    requires m.state == Parameter && m.value == "" && Proper(p) && m.parse == PrintPair(p) + t
    requires t == "" || t[0] == ';' || t[0] == ','
    ensures ParseFrom(m) ==
      if p.value.Bare? && Name(p) in m.res then Bad(Duplicate, p.value.token + (p.trail + t))
      else ParseFrom(Machine(t, PairEnd, Name(p), "", m.res[Name(p) := ValueText(p.value)]))
  {
    PairApart(p, t);
    var value := PrintValue(p.value) + (p.trail + t);
    KeyTurns(m, p.lead, p.key, p.gap, p.pad, value);
    ValueTurns(m.(parse := value, parameter := Name(p), state := Value), p.value, p.trail, t);
  }

  /** What the end of the last parameter leads to. */
  lemma {:induction false} TailTurns(m: Machine, tail: Tail)
    requires m.state == PairEnd && m.parse == PrintTail(tail) && (tail.Semicolon? ==> Spaces(tail.space))
    ensures ParseFrom(m) == Parsed(m.res, Rest(tail))
  {
    match tail
    case End =>
    case Comma(rest) =>
      assert TrimLeft(m.parse) == m.parse && m.parse[1..] == rest;
      assert TakeTurn(m) == Next(m.(state := Element));
      assert TakeTurn(m.(state := Element)) == Done(m.res, rest);
    case Semicolon(space) =>
      SeparatorTurn(m, space);
      assert space + "" == space;
      SpaceIsSkipped(m.(parse := space, state := Parameter), space, "");
  }

  /** The outcome for the printed parameters, one by one. */
  function Expected(res: map<string, string>, pairs: seq<Pair>, tail: Tail): Result
    decreases |pairs|
  {
    if pairs == [] then Parsed(res, Rest(tail))
    else
      var p := pairs[0];
      if p.value.Bare? && Name(p) in res then Bad(Duplicate, p.value.token + (p.trail + After(pairs, tail)))
      else Expected(res[Name(p) := ValueText(p.value)], pairs[1..], tail)
  }

  lemma {:induction false} ExpectedOutcome(res: map<string, string>, pairs: seq<Pair>, tail: Tail)
    ensures Repeats(res, pairs) ==> Expected(res, pairs, tail).Bad? && Expected(res, pairs, tail).problem == Duplicate
    ensures !Repeats(res, pairs) ==> Expected(res, pairs, tail) == Parsed(Meaning(res, pairs), Rest(tail))
    decreases |pairs|
  {
    if pairs == [] {
    } else {
      ExpectedOutcome(res[Name(pairs[0]) := ValueText(pairs[0].value)], pairs[1..], tail);
    }
  }

  lemma {:induction false} PairsRoundTrip(m: Machine, pairs: seq<Pair>, tail: Tail)
    requires m.state == Parameter && m.value == "" && pairs != [] && ProperElement(pairs, tail)
    requires m.parse == Print(pairs, tail)
    ensures ParseFrom(m) == Expected(m.res, pairs, tail)
    decreases |pairs|
  {
    FirstPair(m, pairs, tail);
    var p := pairs[0];
    if |pairs| == 1 {
      assert pairs[1..] == [];
    } else if !(p.value.Bare? && Name(p) in m.res) {
      var next := m.res[Name(p) := ValueText(p.value)];
      PairsRoundTrip(Machine(Print(pairs[1..], tail), Parameter, Name(p), "", next), pairs[1..], tail);
    }
  }

  /** The first parameter of a list and what follows it. */
  lemma {:induction false} FirstPair(m: Machine, pairs: seq<Pair>, tail: Tail)
    requires m.state == Parameter && m.value == "" && pairs != [] && ProperElement(pairs, tail)
    requires m.parse == Print(pairs, tail)
    ensures
      var p := pairs[0];
      var next := m.res[Name(p) := ValueText(p.value)];
      ParseFrom(m) ==
        if p.value.Bare? && Name(p) in m.res then Bad(Duplicate, p.value.token + (p.trail + After(pairs, tail)))
        else if |pairs| == 1 then Parsed(next, Rest(tail))
        else ParseFrom(Machine(Print(pairs[1..], tail), Parameter, Name(p), "", next))
  {
    var p, after := pairs[0], After(pairs, tail);
    PairRoundTrip(m, p, after);
    var end := Machine(after, PairEnd, Name(p), "", m.res[Name(p) := ValueText(p.value)]);
    if |pairs| == 1 { TailTurns(end, tail); } else { SeparatorTurn(end, Print(pairs[1..], tail)); }
  }

  /** Main result: the parser undoes the printer for every list of parameters, with white space wherever it may
      stand, keys of any case and values escaped in any way, and hands back the rest of the list. It fails exactly
      when an unquoted value repeats a parameter; a quoted repetition silently replaces the earlier value. */
  lemma {:induction false} ForwardedRoundTrip(blank: string, pairs: seq<Pair>, tail: Tail)
    requires Spaces(blank) && ProperElement(pairs, tail)
    ensures var r := Parse(blank + Print(pairs, tail));
      && (Repeats(map[], pairs) ==> r.Bad? && r.problem == Duplicate)
      && (!Repeats(map[], pairs) ==> r == Parsed(Meaning(map[], pairs), Rest(tail)))
  {
    var text := Print(pairs, tail);
    var m := Machine(blank + text, Element, "", "", map[]);
    SpaceIsSkipped(m, blank, text);
    if pairs == [] {
      EmptyElement(tail);
    } else {
      ElementTurn(text, pairs[0], After(pairs, tail));
      PairsRoundTrip(m.(parse := text, state := Parameter), pairs, tail);
    }
    ExpectedOutcome(map[], pairs, tail);
  }

  lemma EmptyElement(tail: Tail)
    requires !tail.Semicolon?
    ensures Parse(PrintTail(tail)) == Parsed(map[], Rest(tail))
  {
    var text := PrintTail(tail);
    if tail.Comma? { assert TrimLeft(text) == text && text[1..] == tail.rest; }
  }

  /** The first turn, on a text that starts with a parameter. */
  lemma ElementTurn(text: string, p: Pair, t: string)
    requires Proper(p) && text == PrintPair(p) + t
    ensures Parse(text) == ParseFrom(Machine(text, Parameter, "", "", map[]))
  {
    PairApart(p, t);
    var m, rest := Machine(text, Element, "", "", map[]), text[|p.lead|..];
    assert text == p.lead + rest && rest[0] == p.key[0] && IsTokenChar(p.key[0]);
    TrimSpaces(p.lead, rest);
    assert TrimLeft(rest) == rest;
    assert TakeTurn(m) == Next(m.(parse := rest, state := Parameter));
    SpaceIsSkipped(m.(state := Parameter), p.lead, rest);
  }

  // ---------------------------------------------------------------------------------------------
  // Nothing else is accepted

  /** From the end of a value: white space, and the end, the next element, or more parameters. */
  lemma {:induction false} EndIsPrinted(m: Machine) returns (trail: string, more: seq<Pair>, tail: Tail)
    requires m.state == PairEnd && m.value == "" && ParseFrom(m).Parsed?
    ensures m.parse == trail + (if more == [] then PrintTail(tail) else ";" + Print(more, tail)) && Spaces(trail)
    ensures m.parse != "" && !IsTokenChar(m.parse[0]) ==> Apart(trail)
    ensures (forall i :: 0 <= i < |more| ==> Proper(more[i])) && (tail.Semicolon? ==> Spaces(tail.space))
    decreases |m.parse|
  {
    trail := LeadingSpace(m.parse);
    var s := TrimLeft(m.parse);
    SpaceIsSkipped(m, trail, s);
    more := [];
    if s == "" {
      tail := End;
    } else if s[0] == ',' {
      tail := Comma(s[1..]);
      assert s == "," + s[1..];
    } else {
      assert TrimLeft(s) == s && (s[0] != ';' ==> TakeTurn(m.(parse := s)).Failed?);
      assert s == ";" + s[1..];
      SeparatorTurn(m.(parse := s), s[1..]);
      var next := m.(parse := s[1..], state := Parameter);
      if TrimLeft(s[1..]) == "" {
        var space := LeadingSpace(s[1..]);
        assert space + "" == space;
        tail := Semicolon(space);
      } else {
        more, tail := PairsArePrinted(next);
      }
    }
  }

  /** From the start of a parameter. */
  lemma {:induction false} PairsArePrinted(m: Machine) returns (pairs: seq<Pair>, tail: Tail)
    requires m.state == Parameter && m.value == "" && TrimLeft(m.parse) != "" && ParseFrom(m).Parsed?
    ensures pairs != [] && ProperElement(pairs, tail) && m.parse == Print(pairs, tail)
    decreases |m.parse|, 1
  {
    var p, m1 := OnePairIsPrinted(m);
    var trail, more;
    trail, more, tail := EndIsPrinted(m1);
    pairs := [p.(trail := trail)] + more;
    Together(p, trail, more, tail);
  }

  lemma {:induction false} Together(p: Pair, trail: string, more: seq<Pair>, tail: Tail)
    requires p.trail == ""
    ensures PrintPair(p) + (trail + (if more == [] then PrintTail(tail) else ";" + Print(more, tail))) ==
      Print([p.(trail := trail)] + more, tail)
  {
    var pairs := [p.(trail := trail)] + more;
    assert pairs[1..] == more;
    var after := After(pairs, tail);
    PairApart(pairs[0], after);
    PairApart(p, trail + after);
    assert "" + (trail + after) == trail + after;
  }

  /** One parameter up to the end of its value. */
  lemma OnePairIsPrinted(m: Machine) returns (p: Pair, m1: Machine)
    requires m.state == Parameter && m.value == "" && TrimLeft(m.parse) != "" && ParseFrom(m).Parsed?
    ensures Proper(p) && p.trail == "" && m.parse == PrintPair(p) + m1.parse && |m1.parse| < |m.parse|
    ensures m1.state == PairEnd && m1.value == "" && ParseFrom(m1) == ParseFrom(m)
    ensures p.value.Bare? && m1.parse != "" ==> !IsTokenChar(m1.parse[0])
  {
    var lead, key, gap, pad, t := KeyIsPrinted(m);
    KeyTurns(m, lead, key, gap, pad, t);
    var m2 := m.(parse := t, parameter := LowerAll(key), state := Value);
    var v, u := ValueIsPrinted(m2);
    p := Pair(lead, key, gap, pad, v, "");
    m1 := Machine(u, PairEnd, m2.parameter, "", m2.res[m2.parameter := ValueText(v)]);
    PairApart(p, u);
    assert "" + u == u;
  }

  lemma KeyIsPrinted(m: Machine) returns (lead: string, key: string, gap: string, pad: string, t: string)
    requires m.state == Parameter && TrimLeft(m.parse) != "" && ParseFrom(m).Parsed?
    ensures Spaces(lead) && IsToken(key) && Apart(gap) && Spaces(pad)
    ensures m.parse == lead + (key + (gap + ("=" + (pad + t)))) && TrimLeft(t) == t
  {
    var after;
    lead, key, after := KeyFound(m);
    gap, pad, t := SignIsPrinted(m.(parse := after, parameter := LowerAll(key), state := KeyValueDelimiter));
  }

  lemma KeyFound(m: Machine) returns (lead: string, key: string, after: string)
    requires m.state == Parameter && TrimLeft(m.parse) != "" && ParseFrom(m).Parsed?
    ensures m.parse == lead + (key + after) && Spaces(lead) && IsToken(key) && (after == "" || !IsTokenChar(after[0]))
    ensures ParseFrom(m.(parse := after, parameter := LowerAll(key), state := KeyValueDelimiter)).Parsed?
  {
    lead := LeadingSpace(m.parse);
    SpaceIsSkipped(m, lead, TrimLeft(m.parse));
    key, after := TokenIsKey(m.(parse := TrimLeft(m.parse)));
  }

  lemma TokenIsKey(m: Machine) returns (key: string, after: string)
    requires m.state == Parameter && TrimLeft(m.parse) == m.parse != "" && ParseFrom(m).Parsed?
    ensures m.parse == key + after && IsToken(key) && (after == "" || !IsTokenChar(after[0]))
    ensures ParseFrom(m.(parse := after, parameter := LowerAll(key), state := KeyValueDelimiter)).Parsed?
  {
    NoTokenFails(m);
    var n := TokenLength(m.parse);
    key, after := m.parse[..n], m.parse[n..];
    assert m.parse == key + after;
    KeyTurn(m, key, after);
  }

  lemma {:induction false} NoTokenFails(m: Machine)
    requires TrimLeft(m.parse) == m.parse != "" && (m.state == Parameter || (m.state == Value && m.parse[0] != '"'))
    ensures TokenLength(m.parse) == 0 ==> ParseFrom(m).Bad?
  {
    assert TokenLength(m.parse) == 0 ==> TakeTurn(m).Failed?;
  }

  lemma SignIsPrinted(m: Machine) returns (gap: string, pad: string, t: string)
    requires m.state == KeyValueDelimiter && ParseFrom(m).Parsed? && (m.parse == "" || !IsTokenChar(m.parse[0]))
    ensures Apart(gap) && Spaces(pad) && m.parse == gap + ("=" + (pad + t)) && TrimLeft(t) == t
  {
    gap := LeadingSpace(m.parse);
    var sign := TrimLeft(m.parse);
    assert sign == "" || sign[0] != '=' ==> TakeTurn(m).Failed?;
    assert sign == "=" + sign[1..];
    pad := LeadingSpace(sign[1..]);
    t := TrimLeft(sign[1..]);
  }

  lemma ValueIsPrinted(m: Machine) returns (v: Value, t: string)
    requires m.state == Value && m.value == "" && TrimLeft(m.parse) == m.parse && ParseFrom(m).Parsed?
    ensures m.parse == PrintValue(v) + t && |t| < |m.parse|
    ensures v.Bare? ==> IsToken(v.token) && (t == "" || !IsTokenChar(t[0]))
    ensures v.Quoted? ==> forall i :: 0 <= i < |v.items| ==> ProperItem(v.items[i])
    ensures ParseFrom(m) == ParseFrom(Machine(t, PairEnd, m.parameter, "", m.res[m.parameter := ValueText(v)]))
  {
    NoValueFails(m);
    if m.parse[0] == '"' {
      var items;
      items, t := QuotedValueIsPrinted(m);
      v := Quoted(items);
      QuotesApart(items, t);
    } else {
      var token;
      token, t := BareValueIsPrinted(m);
      v := Bare(token);
    }
  }

  lemma {:induction false} QuotesApart(items: seq<Item>, t: string)
    ensures "\"" + (PrintItems(items) + ("\"" + t)) == PrintValue(Quoted(items)) + t
  {
  }

  lemma {:induction false} NoValueFails(m: Machine)
    requires m.state == Value
    ensures m.parse == "" ==> ParseFrom(m).Bad?
  {
    assert m.parse == "" ==> TakeTurn(m).Failed?;
  }

  lemma QuotedValueIsPrinted(m: Machine) returns (items: seq<Item>, t: string)
    requires m.state == Value && m.value == "" && m.parse != "" && m.parse[0] == '"' && ParseFrom(m).Parsed?
    ensures m.parse == "\"" + (PrintItems(items) + ("\"" + t))
    ensures forall i :: 0 <= i < |items| ==> ProperItem(items[i])
    ensures ParseFrom(m) == ParseFrom(Machine(t, PairEnd, m.parameter, "", m.res[m.parameter := ItemText(items)]))
  {
    assert m.parse == "\"" + m.parse[1..];
    OpeningTurn(m, m.parse[1..]);
    var m1 := m.(parse := m.parse[1..], state := QuotedValue);
    items, t := QuotedIsPrinted(m1);
    QuotedRoundTrip(m1, items, t);
    assert "" + ItemText(items) == ItemText(items);
  }

  lemma BareValueIsPrinted(m: Machine) returns (token: string, t: string)
    requires m.state == Value && TrimLeft(m.parse) == m.parse != "" && m.parse[0] != '"' && ParseFrom(m).Parsed?
    ensures m.parse == token + t && IsToken(token) && (t == "" || !IsTokenChar(t[0]))
    ensures ParseFrom(m) == ParseFrom(Machine(t, PairEnd, m.parameter, "", m.res[m.parameter := token]))
  {
    NoTokenFails(m);
    var n := TokenLength(m.parse);
    token, t := m.parse[..n], m.parse[n..];
    assert m.parse == token + t;
    BareTurn(m, token, t);
  }

  /** Main result: the parser accepts nothing but printed elements, and so, with the round trip, accepts a text if and
      only if it is one in which no unquoted value repeats a parameter. */
  lemma AcceptedIsPrinted(text: string) returns (blank: string, pairs: seq<Pair>, tail: Tail)
    requires Parse(text).Parsed?
    ensures Spaces(blank) && ProperElement(pairs, tail) && text == blank + Print(pairs, tail)
    ensures !Repeats(map[], pairs) && Parse(text) == Parsed(Meaning(map[], pairs), Rest(tail))
  {
    blank := LeadingSpace(text);
    var s := TrimLeft(text);
    var m := Machine(text, Element, "", "", map[]);
    assert TrimLeft(s) == s;
    SpaceIsSkipped(m, blank, s);
    pairs := [];
    if s == "" {
      tail := End;
    } else if s[0] == ',' {
      tail := Comma(s[1..]);
      assert s == "," + s[1..];
    } else {
      assert TakeTurn(m.(parse := s)) == Next(m.(parse := s, state := Parameter));
      pairs, tail := PairsArePrinted(m.(parse := s, state := Parameter));
    }
    ForwardedRoundTrip(blank, pairs, tail);
  }

  /** Any text can be a quoted value. */
  lemma AnyTextPrints(v: string) returns (items: seq<Item>)
    ensures ItemText(items) == v && forall i :: 0 <= i < |items| ==> ProperItem(items[i])
  {
    items := Escaped(v, (c: char) => !IsPlain(c));
  }

  /** The ASCII characters of a token are letters, digits, fifteen signs (section 3.2.6 of RFC 7230) and, beyond
      that standard, the backslash; every other character is one too. */
  lemma TokenChars(c: char)
    ensures IsTokenChar(c) <==>
      c as int > 127 || c == '\\' || 'A' <= c <= 'Z' || 'a' <= c <= 'z' || '0' <= c <= '9' ||
      c == '!' || '#' <= c <= '\'' || c == '*' || c == '+' ||
      c == '-' || c == '.' || '^' <= c <= '`' || c == '|' || c == '~'
  {
  }

  /** Pairs with distinct names lose nothing on the way. */
  lemma {:induction false} DistinctKeysKeepAll(res: map<string, string>, pairs: seq<Pair>, i: nat)
    requires i < |pairs| && forall j, k :: 0 <= j < k < |pairs| ==> Name(pairs[j]) != Name(pairs[k])
    requires forall j :: 0 <= j < |pairs| ==> Name(pairs[j]) !in res
    ensures !Repeats(res, pairs)
    ensures Name(pairs[i]) in Meaning(res, pairs) && Meaning(res, pairs)[Name(pairs[i])] == ValueText(pairs[i].value)
    decreases |pairs|
  {
    var res' := res[Name(pairs[0]) := ValueText(pairs[0].value)];
    if i == 0 {
      MeaningKeeps(res', pairs[1..], Name(pairs[0]));
      if |pairs| > 1 { DistinctKeysKeepAll(res', pairs[1..], 0); }
    } else {
      DistinctKeysKeepAll(res', pairs[1..], i - 1);
    }
  }

  lemma {:induction false} MeaningKeeps(res: map<string, string>, pairs: seq<Pair>, key: string)
    requires key in res && forall j :: 0 <= j < |pairs| ==> Name(pairs[j]) != key
    ensures key in Meaning(res, pairs) && Meaning(res, pairs)[key] == res[key]
    decreases |pairs|
  {
    if pairs == [] {
    } else {
      MeaningKeeps(res[Name(pairs[0]) := ValueText(pairs[0].value)], pairs[1..], key);
    }
  }
}
