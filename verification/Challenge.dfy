/** The parser of a WWW-Authenticate challenge: a scheme and comma-separated parameters whose values are
    tokens or quoted strings, and a printer that it undoes. */
module Challenge {
  import opened Text
  import opened Wrappers

  // ---------------------------------------------------------------------------------------------
  // Octet classes

  predicate IsSpace(c: char) {
    c == ' ' || c == '\t' || c == '\r' || c == '\n'
  }

  predicate IsTokenChar(c: char) {
    32 < c as int < 127 && c !in "\"(),/:;<=>?@[]\\{}"
  }

  function TokenLength(s: string): (n: nat)
    ensures n <= |s| && (forall i :: 0 <= i < n ==> IsTokenChar(s[i])) && (n < |s| ==> !IsTokenChar(s[n]))
  {
    Span(s, IsTokenChar)
  }

  function SpaceLength(s: string): (n: nat)
    ensures n <= |s| && (forall i :: 0 <= i < n ==> IsSpace(s[i])) && (n < |s| ==> !IsSpace(s[n]))
  {
    Span(s, IsSpace)
  }

  // ---------------------------------------------------------------------------------------------
  // The scanner

  /** A quoted string from after its opening quote: the text with its escapes undone, and what follows the
      closing quote. Nothing if there is no closing quote. */
  function Unquote(s: string): (r: Option<(string, string)>)
    ensures r.Some? ==> |r.value.1| < |s|
  {
    if s == "" then None
    else if s[0] == '"' then Some(("", s[1..]))
    else if s[0] == '\\' then
      if |s| == 1 then None
      else var r := Unquote(s[2..]); if r.None? then None else Some(([s[1]] + r.value.0, r.value.1))
    else var r := Unquote(s[1..]); if r.None? then None else Some(([s[0]] + r.value.0, r.value.1))
  }

  function TokenOrQuoted(s: string): (r: (string, string))
    ensures r.0 != "" ==> |r.1| < |s|
  {
    if s == "" || s[0] != '"' then (s[..TokenLength(s)], s[TokenLength(s)..])
    else var r := Unquote(s[1..]); if r.None? then ("", "") else r.value
  }

  method SkipSpace(s: string) returns (rest: string)
    ensures rest == s[SpaceLength(s)..]
  {
    var i := 0;
    while i < |s| && IsSpace(s[i])
      invariant 0 <= i <= |s| && SpaceLength(s) == i + SpaceLength(s[i..])
    {
      assert s[i..][1..] == s[i + 1..];
      i := i + 1;
    }
    rest := s[i..];
  }

  method ExpectToken(s: string) returns (token: string, rest: string)
    ensures token == s[..TokenLength(s)] && rest == s[TokenLength(s)..]
  {
    var i := 0;
    while i < |s| && IsTokenChar(s[i])
      invariant 0 <= i <= |s| && TokenLength(s) == i + TokenLength(s[i..])
    {
      assert s[i..][1..] == s[i + 1..];
      i := i + 1;
    }
    return s[..i], s[i..];
  }

  /** What is left to unquote from `i`, given what is in the buffer. */
  ghost function Pending(done: string, s: string, escape: bool): Option<(string, string)> {
    var r :=
      if !escape then Unquote(s)
      else if s == "" then None
      else
        var q := Unquote(s[1..]);
        if q.None? then None else Some(([s[0]] + q.value.0, q.value.1));
    if r.None? then None else Some((done + r.value.0, r.value.1))
  }

  /** The scanner of tokens and quoted strings. A quoted string without escapes is cut out. */
  method ExpectTokenOrQuoted(input: string) returns (value: string, rest: string)
    ensures (value, rest) == TokenOrQuoted(input)
  {
    if input == "" || input[0] != '"' {
      value, rest := ExpectToken(input);
      return;
    }
    var s := input[1..];
    ghost var spec := Unquote(s);
    assert s[..0] == "" && s[0..] == s && (spec.Some? ==> "" + spec.value.0 == spec.value.0);
    var i := 0;
    while i < |s|
      invariant 0 <= i <= |s|
      invariant spec == Pending(s[..i], s[i..], false)
    {
      PendingStep(s[..i], s[i..], false);
      assert s[i..][1..] == s[i + 1..] && s[..i] + [s[i]] == s[..i + 1];
      if s[i] == '"' {
        return s[..i], s[i + 1..];
      }
      if s[i] == '\\' {
        value, rest := CopyUnescaped(s, i);
        return;
      }
      i := i + 1;
    }
    assert s[i..] == "";
    return "", "";
  }

  /** From the first backslash on: the string is copied into a buffer of one byte less than it has, which
      the copy never overruns. */
  method CopyUnescaped(s: string, start: nat) returns (value: string, rest: string)
    requires start < |s| && s[start] == '\\'
    ensures (value, rest) == var r := Pending(s[..start], s[start..], false); if r.None? then ("", "") else r.value
  {
    ghost var spec := Pending(s[..start], s[start..], false);
    PendingStep(s[..start], s[start..], false);
    assert s[start..][1..] == s[start + 1..];
    var p := new char[|s| - 1];
    forall k | 0 <= k < start {
      p[k] := s[k];
    }
    var j := start;
    assert p[..j] == s[..start];
    var escape := true;
    var i := start + 1;
    while i < |s|
      invariant 0 <= j < i <= |s| && p.Length == |s| - 1
      invariant spec == Pending(p[..j], s[i..], escape)
    {
      PendingStep(p[..j], s[i..], escape);
      assert s[i..][0] == s[i] && s[i..][1..] == s[i + 1..];
      var b := s[i];
      if escape {
        escape := false;
        p[j] := b;
        j := j + 1;
        assert p[..j] == p[..j - 1] + [b];
      } else if b == '\\' {
        escape := true;
      } else if b == '"' {
        return p[..j], s[i + 1..];
      } else {
        p[j] := b;
        j := j + 1;
        assert p[..j] == p[..j - 1] + [b];
      }
      i := i + 1;
    }
    assert s[i..] == "";
    return "", "";
  }

  lemma PendingStep(done: string, s: string, escape: bool)
    requires s != ""
    ensures Pending(done, s, escape) ==
      if escape then Pending(done + [s[0]], s[1..], false)
      else if s[0] == '"' then Some((done, s[1..]))
      else if s[0] == '\\' then Pending(done, s[1..], true)
      else Pending(done + [s[0]], s[1..], false)
  {
    if escape || (s[0] != '"' && s[0] != '\\') {
      var q := Unquote(s[1..]);
      if q.Some? { assert done + ([s[0]] + q.value.0) == (done + [s[0]]) + q.value.0; }
    } else if s[0] == '"' {
      assert done + "" == done;
    } else if |s| > 1 {
      assert s[1..][1..] == s[2..];
    }
  }

  // ---------------------------------------------------------------------------------------------
  // The parser

  function Trim(s: string): string {
    s[SpaceLength(s)..]
  }

  /** The parameter that `s` starts with, after its comma, and what follows it. */
  function NextParam(s: string): (r: Option<(string, string, string)>)
    ensures r.Some? ==> |r.value.2| < |s|
  {
    if s == "" || s[0] != ',' then None
    else
      var k := Trim(s[1..]);
      var n := TokenLength(k);
      if n == 0 || n == |k| || k[n] != '=' then None
      else
        var (v, rest) := TokenOrQuoted(k[n + 1..]);
        if v == "" then None else Some((LowerAll(k[..n]), v, Trim(rest)))
  }

  /** The parameters from `s` on; the first thing that is no parameter with a value ends them. */
  function Params(s: string, params: map<string, string>): map<string, string>
    decreases |s|
  {
    var p := NextParam(s);
    if p.None? then params else Params(p.value.2, params[p.value.0 := p.value.1])
  }

  function Parse(header: string): (string, map<string, string>) {
    var n := TokenLength(header);
    if n == 0 then ("", map[]) else (LowerAll(header[..n]), Params("," + Trim(header[n..]), map[]))
  }

  /** One turn of the loop over parameters, with its early ends. */
  method OneParam(s: string) returns (r: Option<(string, string, string)>)
    requires s != "" && s[0] == ','
    ensures r == NextParam(s)
  {
    var k := SkipSpace(s[1..]);
    var pkey, t := ExpectToken(k);
    if pkey == "" {
      return None;
    }
    if t == "" || t[0] != '=' {
      return None;
    }
    assert t[1..] == k[TokenLength(k) + 1..];
    var pvalue, u := ExpectTokenOrQuoted(t[1..]);
    if pvalue == "" {
      return None;
    }
    var rest := SkipSpace(u);
    return Some((LowerAll(pkey), pvalue, rest));
  }

  method ParseValueAndParams(header: string) returns (value: string, params: map<string, string>)
    ensures (value, params) == Parse(header)
  {
    params := map[];
    var s;
    value, s := ExpectToken(header);
    if value == "" {
      return;
    }
    value := LowerAll(value);
    s := SkipSpace(s);
    s := "," + s;
    while s != "" && s[0] == ','
      invariant Parse(header) == (value, Params(s, params))
      decreases |s|
    {
      var p := OneParam(s);
      if p.None? {
        return;
      }
      params := params[p.value.0 := p.value.1];
      s := p.value.2;
    }
  }

  // ---------------------------------------------------------------------------------------------
  // The grammar of a challenge, as a printer

  datatype Value = Bare(token: string) | Quoted(items: seq<Item>)

  /** A parameter with the white space before its key and after its value. */
  datatype Pair = Pair(lead: string, key: string, value: Value, trail: string)

  predicate Spaces(s: string) {
    forall i :: 0 <= i < |s| ==> IsSpace(s[i])
  }

  predicate IsToken(s: string) {
    s != "" && forall i :: 0 <= i < |s| ==> IsTokenChar(s[i])
  }

  /** In quotes, only a quote and a backslash have to be escaped, and any character may be. */
  predicate ProperItem(x: Item) {
    x.escaped || (x.c != '"' && x.c != '\\')
  }

  predicate Proper(p: Pair) {
    && Spaces(p.lead) && IsToken(p.key) && Spaces(p.trail)
    && (p.value.Bare? ==> IsToken(p.value.token))
    && (p.value.Quoted? ==> forall i :: 0 <= i < |p.value.items| ==> ProperItem(p.value.items[i]))
  }

  /** What may stand after a parameter: nothing that would belong to its value or its space. */
  predicate Stops(p: Pair, t: string) {
    t == "" || (!IsSpace(t[0]) && (p.value.Bare? && p.trail == "" ==> !IsTokenChar(t[0])))
  }

  function PrintValue(v: Value): string {
    if v.Bare? then v.token else "\"" + (PrintItems(v.items) + "\"")
  }

  function ValueText(v: Value): string {
    if v.Bare? then v.token else ItemText(v.items)
  }

  function Name(p: Pair): string {
    LowerAll(p.key)
  }

  function PrintPair(p: Pair): string {
    p.lead + (p.key + ("=" + (PrintValue(p.value) + p.trail)))
  }

  /** The parameters, each behind a comma, and whatever follows them. */
  function Print(pairs: seq<Pair>, tail: string): string {
    if pairs == [] then tail else "," + (PrintPair(pairs[0]) + Print(pairs[1..], tail))
  }

  /** `s` begins with a comma and a parameter that has a value, with `t` after it. */
  predicate Begins(s: string, p: Pair, t: string) {
    Proper(p) && ValueText(p.value) != "" && Stops(p, t) && s == "," + (PrintPair(p) + t)
  }

  /** `s` begins with no such parameter. */
  ghost predicate Stuck(s: string) {
    forall p, t :: !Begins(s, p, t)
  }

  predicate ProperList(pairs: seq<Pair>, tail: string) {
    && (forall i :: 0 <= i < |pairs| ==> Proper(pairs[i]))
    && (pairs != [] ==> Stops(pairs[|pairs| - 1], tail))
  }

  /** The parameters the pairs stand for, up to the first with an empty value; a later pair wins. */
  function Meaning(params: map<string, string>, pairs: seq<Pair>): map<string, string>
    decreases |pairs|
  {
    if pairs == [] || ValueText(pairs[0].value) == "" then params
    else Meaning(params[Name(pairs[0]) := ValueText(pairs[0].value)], pairs[1..])
  }

  // ---------------------------------------------------------------------------------------------
  // The round trip

  lemma TokenStops(k: string, t: string)
    requires (forall i :: 0 <= i < |k| ==> IsTokenChar(k[i])) && (t == "" || !IsTokenChar(t[0]))
    ensures TokenLength(k + t) == |k|
    ensures (k + t)[..|k|] == k && (k + t)[|k|..] == t
  {
    SpanStops(k, t, IsTokenChar);
  }

  lemma TrimSpaces(sp: string, t: string)
    requires Spaces(sp) && (t == "" || !IsSpace(t[0]))
    ensures Trim(sp + t) == t
  {
    SpanStops(sp, t, IsSpace);
  }

  /** Unquoting undoes any way of escaping, for any text and anything after it. */
  lemma {:induction false} UnquotePrinted(items: seq<Item>, t: string)
    requires forall i :: 0 <= i < |items| ==> ProperItem(items[i])
    ensures Unquote(PrintItems(items) + ("\"" + t)) == Some((ItemText(items), t))
    decreases |items|
  {
    var s := PrintItems(items) + ("\"" + t);
    if items == [] {
      assert s == "\"" + t && s[1..] == t;
    } else {
      var x, rest := items[0], PrintItems(items[1..]) + ("\"" + t);
      assert ProperItem(x);
      FirstItem(items, "\"" + t);
      UnquotePrinted(items[1..], t);
      if x.escaped {
        assert s[1] == x.c && s[2..] == rest;
      } else {
        assert s[0] == x.c && s[1..] == rest;
      }
    }
  }

  /** And only such text can be unquoted. */
  lemma {:induction false} UnquotedIsPrinted(s: string) returns (items: seq<Item>, t: string)
    requires Unquote(s).Some?
    ensures s == PrintItems(items) + ("\"" + t) && forall i :: 0 <= i < |items| ==> ProperItem(items[i])
    decreases |s|
  {
    if s[0] == '"' {
      items, t := [], s[1..];
      assert s == "" + ("\"" + t);
    } else {
      var x := if s[0] == '\\' then Item(s[1], true) else Item(s[0], false);
      var rest := if x.escaped then s[2..] else s[1..];
      items, t := UnquotedIsPrinted(rest);
      assert s == (if x.escaped then ['\\', x.c] else [x.c]) + rest;
      var all := [x] + items;
      FirstItem(all, "\"" + t);
      assert all[1..] == items;
      items := all;
    }
  }

  lemma ValueRoundTrip(p: Pair, t: string)
    requires Proper(p) && Stops(p, t)
    ensures TokenOrQuoted(PrintValue(p.value) + (p.trail + t)) == (ValueText(p.value), p.trail + t)
  {
    var v, after := p.value, p.trail + t;
    assert after != "" ==> after[0] == if p.trail == "" then t[0] else p.trail[0];
    if v.Bare? {
      TokenStops(v.token, after);
      assert (v.token + after)[0] == v.token[0];
    } else {
      var s := "\"" + (PrintItems(v.items) + ("\"" + after));
      assert PrintValue(v) + after == s;
      assert s[1..] == PrintItems(v.items) + ("\"" + after);
      UnquotePrinted(v.items, after);
    }
  }

  lemma PairApart(p: Pair, t: string)
    ensures PrintPair(p) + t == p.lead + (p.key + ("=" + (PrintValue(p.value) + (p.trail + t))))
  {
  }

  /** A key with space before it, the sign, and whatever value follows. */
  lemma KeyThenValue(lead: string, key: string, rest: string)
    requires Spaces(lead) && IsToken(key)
    ensures NextParam("," + (lead + (key + ("=" + rest)))) ==
      var (v, u) := TokenOrQuoted(rest); if v == "" then None else Some((LowerAll(key), v, Trim(u)))
  {
    var k := key + ("=" + rest);
    WithoutComma(lead + k);
    assert k[0] == key[0] && IsTokenChar(key[0]);
    TrimSpaces(lead, k);
    TokenStops(key, "=" + rest);
    assert k[|key|] == '=' && k[|key| + 1..] == rest;
  }

  /** One parameter, with any space around it, a key of any case and a value in any form. */
  lemma OnePair(p: Pair, t: string)
    requires Proper(p) && Stops(p, t)
    ensures NextParam("," + (PrintPair(p) + t)) ==
      if ValueText(p.value) == "" then None else Some((Name(p), ValueText(p.value), t))
  {
    PairApart(p, t);
    KeyThenValue(p.lead, p.key, PrintValue(p.value) + (p.trail + t));
    ValueRoundTrip(p, t);
    TrimSpaces(p.trail, t);
  }

  lemma {:induction false} FirstPair(pairs: seq<Pair>, tail: string)
    requires pairs != [] && ProperList(pairs, tail)
    ensures var p, v := pairs[0], ValueText(pairs[0].value);
      NextParam(Print(pairs, tail)) == if v == "" then None else Some((Name(p), v, Print(pairs[1..], tail)))
  {
    RestOfList(pairs, tail);
    OnePair(pairs[0], Print(pairs[1..], tail));
  }

  lemma {:induction false} RestOfList(pairs: seq<Pair>, tail: string)
    requires pairs != [] && ProperList(pairs, tail)
    ensures Proper(pairs[0]) && Stops(pairs[0], Print(pairs[1..], tail)) && ProperList(pairs[1..], tail)
  {
    assert |pairs| == 1 ==> pairs[1..] == [];
  }

  lemma ParamsTurn(s: string, p: Option<(string, string, string)>, params: map<string, string>)
    requires p == NextParam(s)
    ensures Params(s, params) == if p.None? then params else Params(p.value.2, params[p.value.0 := p.value.1])
  {
  }

  lemma {:induction false} PairsRoundTrip(pairs: seq<Pair>, tail: string, params: map<string, string>)
    requires ProperList(pairs, tail) && Stuck(tail)
    ensures Params(Print(pairs, tail), params) == Meaning(params, pairs)
    decreases |pairs|
  {
    if pairs == [] {
      StuckExactly(tail);
      ParamsTurn(tail, None, params);
    } else {
      var p, v, rest := pairs[0], ValueText(pairs[0].value), Print(pairs[1..], tail);
      FirstPair(pairs, tail);
      RestOfList(pairs, tail);
      ParamsTurn(Print(pairs, tail), if v == "" then None else Some((Name(p), v, rest)), params);
      if v != "" { PairsRoundTrip(pairs[1..], tail, params[Name(p) := v]); }
    }
  }

  /** The head of a challenge: the scheme, white space, and the parameters without their first comma. */
  predicate IsHeader(header: string, scheme: string, space: string, pairs: seq<Pair>, tail: string) {
    && IsToken(scheme) && Spaces(space)
    && var text := Print(pairs, tail);
       && text != "" && text[0] == ',' && header == scheme + (space + text[1..])
       && (text == "," || (!IsSpace(text[1]) && (space == "" ==> !IsTokenChar(text[1]))))
  }

  /** Main result: the parser undoes the printer up to the first empty value, whatever characters the values
      hold and however they are written, with white space around parameters and letters of any case, and whatever
      follows that is no parameter. */
  lemma {:induction false} ChallengeRoundTrip(header: string, scheme: string, space: string, pairs: seq<Pair>,
          tail: string)
    requires ProperList(pairs, tail) && Stuck(tail) && IsHeader(header, scheme, space, pairs, tail)
    ensures Parse(header) == (LowerAll(scheme), Meaning(map[], pairs))
  {
    var text := Print(pairs, tail);
    var after := space + text[1..];
    assert after != "" ==> after[0] == if space == "" then text[1] else space[0];
    TokenStops(scheme, after);
    TrimSpaces(space, text[1..]);
    assert "," + text[1..] == text;
    PairsRoundTrip(pairs, tail, map[]);
  }

  // ---------------------------------------------------------------------------------------------
  // Every challenge is one of the grammar

  /** A parameter that the parser finds is a printed one. */
  lemma ParamIsPrinted(s: string) returns (p: Pair, t: string)
    requires NextParam(s).Some?
    ensures Begins(s, p, t) && NextParam(s) == Some((Name(p), ValueText(p.value), t))
  {
    CommaFirst(s);
    AfterComma(s, Trim(s[1..]));
    p, t := ParamFrom(s[1..], Trim(s[1..]));
    OnePair(p, t);
  }

  /** A key and a value are a printed parameter. */
  lemma ParamFrom(body: string, k: string) returns (p: Pair, t: string)
    requires k == Trim(body) && 0 < TokenLength(k) < |k| && k[TokenLength(k)] == '='
    requires TokenOrQuoted(k[TokenLength(k) + 1..]).0 != ""
    ensures Proper(p) && ValueText(p.value) != "" && Stops(p, t) && body == PrintPair(p) + t
  {
    var lead, key, after := LeadAndKey(body, k);
    var v, u := ValueIsPrinted(after);
    var trail := TrailApart(u);
    t := Trim(u);
    p := Pair(lead, key, v, trail);
    PairApart(p, t);
  }

  lemma CommaFirst(s: string)
    requires s != "" && s[0] == ','
    ensures s == "," + s[1..]
  {
  }

  lemma AfterComma(s: string, k: string)
    requires NextParam(s).Some? && k == Trim(s[1..])
    ensures 0 < TokenLength(k) < |k| && k[TokenLength(k)] == '=' && TokenOrQuoted(k[TokenLength(k) + 1..]).0 != ""
  {
  }

  lemma LeadAndKey(body: string, k: string) returns (lead: string, key: string, after: string)
    requires k == Trim(body) && 0 < TokenLength(k) < |k| && k[TokenLength(k)] == '='
    ensures body == lead + (key + ("=" + after)) && Spaces(lead) && IsToken(key) && after == k[TokenLength(k) + 1..]
  {
    lead := TrailApart(body);
    key, after := KeyApart(k);
  }

  lemma KeyApart(k: string) returns (key: string, after: string)
    requires 0 < TokenLength(k) < |k| && k[TokenLength(k)] == '='
    ensures k == key + ("=" + after) && IsToken(key) && after == k[TokenLength(k) + 1..]
  {
    var l := TokenLength(k);
    key, after := k[..l], k[l + 1..];
    assert k == key + k[l..] && k[l..] == "=" + after;
  }

  lemma TrailApart(u: string) returns (trail: string)
    ensures u == trail + Trim(u) && Spaces(trail) && (Trim(u) == "" || !IsSpace(Trim(u)[0]))
    ensures trail == "" ==> Trim(u) == u
  {
    trail := u[..SpaceLength(u)];
  }

  lemma ValueIsPrinted(s: string) returns (v: Value, u: string)
    requires TokenOrQuoted(s).0 != ""
    ensures s == PrintValue(v) + u && TokenOrQuoted(s) == (ValueText(v), u)
    ensures v.Bare? ==> IsToken(v.token) && (u == "" || !IsTokenChar(u[0]))
    ensures v.Quoted? ==> forall i :: 0 <= i < |v.items| ==> ProperItem(v.items[i])
  {
    if s[0] == '"' {
      var items;
      items, u := UnquotedIsPrinted(s[1..]);
      v := Quoted(items);
      UnquotePrinted(items, u);
      assert s == "\"" + s[1..] == PrintValue(v) + u;
    } else {
      v, u := Bare(s[..TokenLength(s)]), s[TokenLength(s)..];
    }
  }

  /** So what ends the parameters is exactly what is none. */
  lemma StuckExactly(s: string)
    ensures Stuck(s) <==> NextParam(s).None?
  {
    if NextParam(s).Some? {
      var p, t := ParamIsPrinted(s);
    }
    forall p, t ensures Begins(s, p, t) ==> NextParam(s).Some? {
      if Begins(s, p, t) { OnePair(p, t); }
    }
  }

  lemma {:induction false} ParamsArePrinted(s: string) returns (pairs: seq<Pair>, tail: string)
    ensures s == Print(pairs, tail) && ProperList(pairs, tail) && Stuck(tail)
    ensures forall i :: 0 <= i < |pairs| ==> ValueText(pairs[i].value) != ""
    decreases |s|
  {
    if NextParam(s).None? {
      StuckExactly(s);
      pairs, tail := [], s;
    } else {
      var p, t := ParamIsPrinted(s);
      var more;
      more, tail := ParamsArePrinted(t);
      pairs := [p] + more;
      MorePairs(p, more, tail);
    }
  }

  lemma {:induction false} MorePairs(p: Pair, more: seq<Pair>, tail: string)
    requires Proper(p) && ProperList(more, tail) && Stops(p, Print(more, tail))
    ensures ProperList([p] + more, tail)
    ensures Print([p] + more, tail) == "," + (PrintPair(p) + Print(more, tail))
  {
    assert ([p] + more)[1..] == more;
    assert more != [] ==> ([p] + more)[|more|] == more[|more| - 1];
  }

  /** Main result: every text with a scheme is a challenge of the grammar, so the round trip says what the parser
      makes of any text; and one without a scheme gives nothing. */
  lemma HeaderIsPrinted(header: string)
    returns (scheme: string, space: string, pairs: seq<Pair>, tail: string)
    requires header != "" && IsTokenChar(header[0])
    ensures ProperList(pairs, tail) && Stuck(tail) && IsHeader(header, scheme, space, pairs, tail)
    ensures forall i :: 0 <= i < |pairs| ==> ValueText(pairs[i].value) != ""
    ensures Parse(header) == (LowerAll(scheme), Meaning(map[], pairs))
  {
    var body;
    scheme, space, body := HeaderApart(header);
    pairs, tail := ParamsArePrinted("," + body);
    WithoutComma(body);
    ChallengeRoundTrip(header, scheme, space, pairs, tail);
  }

  lemma WithoutComma(body: string)
    ensures var s := "," + body; s != "" && s[0] == ',' && s[1..] == body && (s == "," <==> body == "")
    ensures body != "" ==> ("," + body)[1] == body[0]
  {
  }

  lemma HeaderApart(header: string) returns (scheme: string, space: string, body: string)
    requires header != "" && IsTokenChar(header[0])
    ensures header == scheme + (space + body) && IsToken(scheme) && Spaces(space)
    ensures body == "" || (!IsSpace(body[0]) && (space == "" ==> !IsTokenChar(body[0])))
  {
    var after;
    scheme, after := SchemeApart(header);
    space := TrailApart(after);
    body := Trim(after);
  }

  lemma SchemeApart(header: string) returns (scheme: string, after: string)
    requires header != "" && IsTokenChar(header[0])
    ensures header == scheme + after && IsToken(scheme) && (after == "" || !IsTokenChar(after[0]))
  {
    var n := TokenLength(header);
    scheme, after := header[..n], header[n..];
  }

  lemma NoScheme(header: string)
    requires header == "" || !IsTokenChar(header[0])
    ensures Parse(header) == ("", map[])
  {
  }

  /** A token is made of letters, digits and fifteen signs (section 3.2.6 of RFC 7230). */
  lemma TokenChars(c: char)
    ensures IsTokenChar(c) <==>
      'A' <= c <= 'Z' || 'a' <= c <= 'z' || '0' <= c <= '9' || c == '!' || '#' <= c <= '\'' || c == '*' || c == '+' ||
      c == '-' || c == '.' || '^' <= c <= '`' || c == '|' || c == '~'
  {
  }

  /** Any text can be the value of a parameter. */
  lemma AnyTextPrints(v: string) returns (items: seq<Item>)
    ensures ItemText(items) == v && forall i :: 0 <= i < |items| ==> ProperItem(items[i])
  {
    items := Escaped(v, (c: char) => c == '"' || c == '\\');
  }

  /** No value up to the `i`th is empty. */
  predicate NoneEmpty(pairs: seq<Pair>, i: nat)
    requires i < |pairs|
  {
    forall j :: 0 <= j <= i ==> ValueText(pairs[j].value) != ""
  }

  lemma NoneEmptyShifts(pairs: seq<Pair>, i: nat)
    requires 0 < i < |pairs|
    ensures NoneEmpty(pairs, i) <==> ValueText(pairs[0].value) != "" && NoneEmpty(pairs[1..], i - 1)
  {
    assert forall j :: 1 <= j <= i ==> pairs[1..][j - 1] == pairs[j];
  }

  /** With distinct names, a parameter comes back if and only if no value up to it is empty. */
  lemma {:induction false} AllComeBack(params: map<string, string>, pairs: seq<Pair>, i: nat)
    requires i < |pairs| && forall j, k :: 0 <= j < k < |pairs| ==> Name(pairs[j]) != Name(pairs[k])
    requires forall j :: 0 <= j < |pairs| ==> Name(pairs[j]) !in params
    ensures (Name(pairs[i]) in Meaning(params, pairs) &&
             Meaning(params, pairs)[Name(pairs[i])] == ValueText(pairs[i].value)) <==>
            NoneEmpty(pairs, i)
    decreases |pairs|
  {
    if ValueText(pairs[0].value) == "" {
    } else {
      var params' := params[Name(pairs[0]) := ValueText(pairs[0].value)];
      if i == 0 {
        MeaningKeeps(params', pairs[1..], Name(pairs[0]));
      } else {
        AllComeBack(params', pairs[1..], i - 1);
        NoneEmptyShifts(pairs, i);
      }
    }
  }

  lemma {:induction false} MeaningKeeps(params: map<string, string>, pairs: seq<Pair>, key: string)
    requires key in params && forall j :: 0 <= j < |pairs| ==> Name(pairs[j]) != key
    ensures key in Meaning(params, pairs) && Meaning(params, pairs)[key] == params[key]
    decreases |pairs|
  {
    if pairs != [] && ValueText(pairs[0].value) != "" {
      MeaningKeeps(params[Name(pairs[0]) := ValueText(pairs[0].value)], pairs[1..], key);
    }
  }
}
