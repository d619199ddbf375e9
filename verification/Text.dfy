/** Lower case for ASCII letters, runs of characters of one class, and the characters of a quoted string. */
module Text {
  function Lower(c: char): char {
    if 'A' <= c <= 'Z' then (c as int + 32) as char else c
  }

  function LowerAll(s: string): (r: string)
    ensures |r| == |s| && forall i :: 0 <= i < |s| ==> r[i] == Lower(s[i])
  {
    seq(|s|, i requires 0 <= i < |s| => Lower(s[i]))
  }

  predicate IsLower(s: string) {
    forall i :: 0 <= i < |s| ==> Lower(s[i]) == s[i]
  }

  /** The length of the longest prefix of characters in the class. */
  function Span(s: string, kind: char -> bool): (n: nat)
    ensures n <= |s| && (forall i :: 0 <= i < n ==> kind(s[i])) && (n < |s| ==> !kind(s[n]))
  {
    if s == "" || !kind(s[0]) then 0 else 1 + Span(s[1..], kind)
  }

  lemma {:induction false} SpanStops(k: string, t: string, kind: char -> bool)
    requires (forall i :: 0 <= i < |k| ==> kind(k[i])) && (t == "" || !kind(t[0]))
    ensures Span(k + t, kind) == |k|
  {
    assert forall i :: 0 <= i < |k| ==> (k + t)[i] == k[i];
    assert t != "" ==> (k + t)[|k|] == t[0];
  }

  /** A character of a quoted string, written as it is or behind a backslash. */
  datatype Item = Item(c: char, escaped: bool)

  /** The text the characters stand for. */
  function ItemText(items: seq<Item>): string {
    if items == [] then "" else [items[0].c] + ItemText(items[1..])
  }

  function PrintItems(items: seq<Item>): string {
    if items == [] then ""
    else (if items[0].escaped then ['\\', items[0].c] else [items[0].c]) + PrintItems(items[1..])
  }

  lemma {:induction false} FirstItem(items: seq<Item>, t: string)
    requires items != []
    ensures PrintItems(items) + t ==
      (if items[0].escaped then ['\\', items[0].c] else [items[0].c]) + (PrintItems(items[1..]) + t)
  {
  }

  /** The characters of a text, with a backslash where `needs` says so. */
  function Escaped(v: string, needs: char -> bool): (items: seq<Item>)
    ensures ItemText(items) == v && forall i :: 0 <= i < |items| ==> items[i].escaped == needs(items[i].c)
  {
    if v == "" then [] else [Item(v[0], needs(v[0]))] + Escaped(v[1..], needs)
  }
}
