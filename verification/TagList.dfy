/** Listing tags page by page: a walk over the tags directory with a callback that collects and stops
    at the limit. */
module TagList {
  import opened PathOrder
  import opened Wrappers
  import opened Walk
  import opened Walker

  /** The tag a visit stands for, if it is an entry of the tags directory beyond `last`. */
  predicate IsTag(dir: Path, last: string, v: Visit) {
    |v.path| == |dir| + 1 && Less(last, v.path[|dir|])
  }

  /** The tags collected by the visits so far. */
  function TagsIn(dir: Path, last: string, tr: seq<Visit>): seq<string> {
    if tr == [] then []
    else
      var v := tr[|tr| - 1];
      TagsIn(dir, last, tr[..|tr| - 1]) + if IsTag(dir, last, v) then [v.path[|dir|]] else []
  }

  /** The callback: nothing below a tag is entered, and the walk stops when the page is full. */
  function HandleTag(dir: Path, last: string, limit: int): Callback {
    (tr: seq<Visit>, v: Visit) =>
      if IsTag(dir, last, v) && limit > 0 && |TagsIn(dir, last, tr)| + 1 == limit then Filled else SkipDir
  }

  datatype End = MoreTags | EndOfTags | NoRepository | BadLimit | WalkError

  function Names(es: seq<Entry>): (r: seq<string>)
    ensures |r| == |es| && forall i :: 0 <= i < |es| ==> r[i] == es[i].name
  {
    seq(|es|, i requires 0 <= i < |es| => es[i].name)
  }

  /** The first `limit` names, or all of them when there is no positive limit. */
  function Page(names: seq<string>, limit: int): seq<string> {
    if 0 < limit <= |names| then names[..limit] else names
  }

  /** A `last` that names a path component: empty on the first call, a tag afterwards. */
  predicate IsLast(last: string) {
    last == "" || (IsName(last) && !DotDot(last))
  }

  /** Tag directories, each a directory with a proper name. */
  ghost predicate IsTagDirectory(root: Node, dir: Path, es: seq<Entry>) {
    && root.Dir? && WellFormed(root.entries) && IsPath(dir) && List(root, dir) == Found(es)
    && forall i :: 0 <= i < |es| ==> es[i].node.Dir? && !DotDot(es[i].name)
  }

  // ---------------------------------------------------------------------------------------------
  // Where a listing starts

  /** What names are compared with. */
  function Key(last: string): string {
    Replace(last, '/', '\0')
  }

  function Split(s: string): seq<string>
    decreases |s|
  {
    var i := NextSlash(s);
    if i == |s| then [s] else [s[..i]] + Split(s[i + 1..])
  }

  /** A clean path and the components of a string joined to it. */
  function Descend(p: Path, parts: seq<string>): Path
    decreases |parts|
  {
    if parts == [] then p
    else
      var n := parts[0];
      var q := if n == "" || n == "." then p
        else if n == ".." then (if p == [] then [] else p[..|p| - 1])
        else p + [n];
      Descend(q, parts[1..])
  }

  /** The path that a listing after `last` starts after. */
  function Hint(dir: Path, last: string): Option<Path> {
    if last == "" then None else Some(Descend(dir, Split(last)))
  }

  /** The components with separators between them. */
  function Joined(parts: seq<string>): string {
    if parts == [] then "" else if |parts| == 1 then parts[0] else parts[0] + ("/" + Joined(parts[1..]))
  }

  /** Splitting undoes joining. */
  lemma {:induction false} SplitJoined(parts: seq<string>)
    requires parts != [] && forall k :: 0 <= k < |parts| ==> '/' !in parts[k]
    ensures Split(Joined(parts)) == parts
    decreases |parts|
  {
    var first := parts[0];
    if |parts| == 1 {
      assert forall i :: 0 <= i < |first| ==> first[i] in first;
      assert NextSlash(first) == |first|;
    } else {
      SplitFirst(first, Joined(parts[1..]));
      SplitJoined(parts[1..]);
    }
  }

  lemma {:induction false} SplitFirst(first: string, rest: string)
    requires '/' !in first
    ensures Split(first + ("/" + rest)) == [first] + Split(rest)
  {
    var s := first + ("/" + rest);
    assert forall i :: 0 <= i < |first| ==> s[i] == first[i] && first[i] in first;
    assert s[|first|] == '/' && NextSlash(s) == |first|;
    assert s[..|first|] == first && s[|first| + 1..] == rest;
  }

  /** The rules by which components join a clean path: none for an empty one or a dot, the parent for two dots, one
      component deeper for any other, and one after the other. */
  lemma {:induction false} DescendRules(p: Path, n: string, xs: seq<string>, ys: seq<string>)
    ensures Descend(p, [""]) == Descend(p, ["."]) == Descend(p, []) == p
    ensures Descend([], [".."]) == [] && Descend(p + [n], [".."]) == p
    ensures n != "" && n != "." && n != ".." ==> Descend(p, [n]) == p + [n]
    ensures Descend(p, xs + ys) == Descend(Descend(p, xs), ys)
    decreases |xs|
  {
    assert [n][1..] == [] && [""][1..] == [] && ["."][1..] == [] && [".."][1..] == [];
    assert (p + [n])[..|p|] == p;
    if xs == [] {
      assert xs + ys == ys;
    } else {
      var q := if xs[0] == "" || xs[0] == "." then p
        else if xs[0] == ".." then (if p == [] then [] else p[..|p| - 1])
        else p + [xs[0]];
      assert (xs + ys)[0] == xs[0] && (xs + ys)[1..] == xs[1..] + ys;
      DescendRules(q, n, xs[1..], ys);
    }
  }

  predicate HasNoNull(s: string) {
    forall i :: 0 <= i < |s| ==> s[i] != '\0'
  }

  lemma {:induction false} SplitParts(s: string)
    requires HasNoNull(s)
    ensures forall k :: 0 <= k < |Split(s)| ==> HasNoNull(Split(s)[k]) && '/' !in Split(s)[k]
    decreases |s|
  {
    var i := NextSlash(s);
    if i == |s| {
    } else {
      SplitParts(s[i + 1..]);
    }
  }

  lemma {:induction false} DescendIsPath(p: Path, parts: seq<string>)
    requires IsPath(p) && forall k :: 0 <= k < |parts| ==> HasNoNull(parts[k]) && '/' !in parts[k]
    ensures IsPath(Descend(p, parts))
    decreases |parts|
  {
    if parts == [] {
    } else {
      var n := parts[0];
      var q := if n == "" || n == "." then p
        else if n == ".." then (if p == [] then [] else p[..|p| - 1])
        else p + [n];
      assert n != "" && n != "." && n != ".." ==> IsName(n) by { assert forall i :: 0 <= i < |n| ==> n[i] in n; }
      DescendIsPath(q, parts[1..]);
    }
  }

  lemma HintIsPath(dir: Path, last: string)
    requires IsPath(dir) && HasNoNull(last)
    ensures Hint(dir, last).Some? ==> IsPath(Hint(dir, last).value)
  {
    SplitParts(last);
    DescendIsPath(dir, Split(last));
  }

  /** After a tag, a listing starts after that tag's directory. */
  lemma HintOfTag(dir: Path, last: string)
    requires IsName(last)
    ensures Hint(dir, last) == Some(dir + [last]) && Key(last) == last && HasNoNull(last)
  {
    ReplaceName(last);
    assert NextSlash(last) == |last|;
    assert Split(last) == [last];
    assert [last][1..] == [];
    assert Descend(dir, [last]) == Descend(dir + [last], []);
  }

  lemma {:induction false} TagsInSnoc(dir: Path, last: string, tr: seq<Visit>, v: Visit)
    ensures TagsIn(dir, last, tr + [v]) == TagsIn(dir, last, tr) + if IsTag(dir, last, v) then [v.path[|dir|]] else []
  {
    assert (tr + [v])[..|tr|] == tr;
  }

  lemma {:induction false} NameLess(last: string, n: string)
    requires IsName(n)
    ensures Less(last, n) <==> StrLt(Key(last), n)
  {
    ReplaceName(n);
  }

  lemma {:induction false} EntryNotEntered(f: Callback, path: Path, es: seq<Entry>, tr: seq<Visit>)
    requires es != [] && var v := Visit(path + [es[0].name], es[0].node.Dir?); f(tr, v) == Filled || f(tr, v) == SkipDir
    ensures var v := Visit(path + [es[0].name], es[0].node.Dir?);
      WalkEntries(f, path, es, "", tr) ==
        if f(tr, v) == Filled then (tr + [v], Stop) else WalkEntries(f, path, es[1..], "", tr + [v])
  {
    assert Render(path + [es[0].name]) != "";
  }

  /** Below the tag that is `last`, the walk collects nothing and goes on. */
  lemma {:induction false} BelowLast(dir: Path, last: string, limit: int, path: Path, es: seq<Entry>, tr: seq<Visit>)
    requires |path| > |dir|
    ensures var (tr', flow) := WalkEntries(HandleTag(dir, last, limit), path, es, "", tr);
      flow == More && TagsIn(dir, last, tr') == TagsIn(dir, last, tr)
    decreases |es|
  {
    if es == [] {
    } else {
      var f, v := HandleTag(dir, last, limit), Visit(path + [es[0].name], es[0].node.Dir?);
      assert !IsTag(dir, last, v) && f(tr, v) == SkipDir;
      EntryNotEntered(f, path, es, tr);
      TagsInSnoc(dir, last, tr, v);
      BelowLast(dir, last, limit, path, es[1..], tr + [v]);
    }
  }

  lemma {:induction false} EntryIsTag(dir: Path, last: string, e: Entry, tr: seq<Visit>)
    requires IsName(e.name)
    ensures var v, beyond := Visit(dir + [e.name], e.node.Dir?), StrLt(Key(last), e.name);
      && (IsTag(dir, last, v) <==> beyond)
      && TagsIn(dir, last, tr + [v]) == (if beyond then TagsIn(dir, last, tr) + [e.name] else TagsIn(dir, last, tr))
  {
    var v := Visit(dir + [e.name], e.node.Dir?);
    NameLess(last, e.name);
    TagsInSnoc(dir, last, tr, v);
    assert v.path[|dir|] == e.name;
  }

  /** One entry of the tags directory: collected if it is beyond `last`, and the end of the walk if it fills the
      page. */
  lemma {:induction false} CollectOne(dir: Path, last: string, limit: int, es: seq<Entry>, tr: seq<Visit>)
    requires es != [] && IsName(es[0].name)
    ensures var v, beyond := Visit(dir + [es[0].name], es[0].node.Dir?), StrLt(Key(last), es[0].name);
      && TagsIn(dir, last, tr + [v]) ==
           (if beyond then TagsIn(dir, last, tr) + [es[0].name] else TagsIn(dir, last, tr))
      && WalkEntries(HandleTag(dir, last, limit), dir, es, "", tr) ==
           if beyond && limit > 0 && |TagsIn(dir, last, tr)| + 1 == limit then (tr + [v], Stop)
           else WalkEntries(HandleTag(dir, last, limit), dir, es[1..], "", tr + [v])
  {
    var f, v := HandleTag(dir, last, limit), Visit(dir + [es[0].name], es[0].node.Dir?);
    EntryIsTag(dir, last, es[0], tr);
    assert f(tr, v) ==
      if StrLt(Key(last), es[0].name) && limit > 0 && |TagsIn(dir, last, tr)| + 1 == limit then Filled else SkipDir;
    EntryNotEntered(f, dir, es, tr);
  }

  /** What is collected in all when `got` is there already and the rest of the page takes from `names`. */
  function Collected(got: seq<string>, names: seq<string>, limit: int): seq<string> {
    got + Page(names, if limit > 0 then limit - |got| else limit)
  }

  lemma CollectedFromStart(names: seq<string>, limit: int)
    ensures Collected([], names, limit) == Page(names, limit)
  {
  }

  lemma CollectedStep(got: seq<string>, n: string, names: seq<string>, limit: int)
    requires limit > 0 ==> |got| < limit
    ensures Collected(got, [n] + names, limit) ==
      if limit > 0 && |got| + 1 == limit then got + [n] else Collected(got + [n], names, limit)
  {
    if limit > 0 && |got| + 1 == limit {
      assert Page([n] + names, 1) == [n];
    } else {
      var room := if limit > 0 then limit - |got| else limit;
      assert Page([n] + names, room) == [n] + Page(names, if room > 0 then room - 1 else room);
    }
  }

  lemma FirstName(es: seq<Entry>)
    requires es != []
    ensures Names(es) == [es[0].name] + Names(es[1..])
  {
  }

  lemma {:induction false} RestIsGreater(es: seq<Entry>, key: string)
    requires WellFormed(es) && es != [] && StrLt(key, es[0].name)
    ensures Greater(es, key) == es && Greater(es[1..], key) == es[1..]
  {
    if |es| > 1 {
      assert StrLt(es[0].name, es[1].name) && es[1..][0] == es[1];
      StrLtTransitive(key, es[0].name, es[1].name);
    }
  }

  lemma {:induction false} CollectedFirst(got: seq<string>, es: seq<Entry>, key: string, limit: int)
    requires WellFormed(es) && es != [] && (limit > 0 ==> |got| < limit)
    ensures Collected(got, Names(Greater(es, key)), limit) ==
      if !StrLt(key, es[0].name) then Collected(got, Names(Greater(es[1..], key)), limit)
      else if limit > 0 && |got| + 1 == limit then got + [es[0].name]
      else Collected(got + [es[0].name], Names(Greater(es[1..], key)), limit)
  {
    if StrLt(key, es[0].name) {
      RestIsGreater(es, key);
      FirstName(es);
      CollectedStep(got, es[0].name, Names(es[1..]), limit);
    }
  }

  /** In the tags directory itself, every entry beyond `last` is collected until the page is full. */
  lemma {:induction false} CollectTags(dir: Path, last: string, limit: int, es: seq<Entry>, tr: seq<Visit>)
    requires WellFormed(es)
    requires limit > 0 ==> |TagsIn(dir, last, tr)| < limit
    ensures var (tr', flow) := WalkEntries(HandleTag(dir, last, limit), dir, es, "", tr);
      && TagsIn(dir, last, tr') == Collected(TagsIn(dir, last, tr), Names(Greater(es, Key(last))), limit)
      && (flow == More || flow == Stop)
    decreases |es|
  {
    if es == [] {
      assert Names(es) == [];
    } else {
      var v := Visit(dir + [es[0].name], es[0].node.Dir?);
      CollectOne(dir, last, limit, es, tr);
      CollectedFirst(TagsIn(dir, last, tr), es, Key(last), limit);
      if !(StrLt(Key(last), es[0].name) && limit > 0 && |TagsIn(dir, last, tr)| + 1 == limit) {
        CollectTags(dir, last, limit, es[1..], tr + [v]);
      }
    }
  }

  lemma {:induction false} EmptyLastSkipsNone(es: seq<Entry>)
    requires WellFormed(es)
    ensures Greater(es, "") == es
  {
  }

  // ---------------------------------------------------------------------------------------------
  // The walk of a listing

  /** The levels of the climb below the tags directory collect nothing and go on. */
  lemma {:induction false} BelowDirectory(root: Node, dir: Path, limit: int, last: string, h: Path, k: nat,
          tr: seq<Visit>)
    returns (tr': seq<Visit>)
    requires TreeOk(root, h) && dir <= h && |dir| <= k <= |h|
    ensures TagsIn(dir, last, tr') == TagsIn(dir, last, tr)
    ensures Climb(HandleTag(dir, last, limit), root, |dir|, h, k, StartAfter(h, k), tr) ==
      Climb(HandleTag(dir, last, limit), root, |dir|, h, |dir|, StartAfter(h, |dir|), tr')
    decreases k
  {
    if k == |dir| {
      tr' := tr;
    } else {
      var tr1 := LevelBelow(root, dir, limit, last, h, k, tr);
      tr' := BelowDirectory(root, dir, limit, last, h, k - 1, tr1);
    }
  }

  lemma LevelBelow(root: Node, dir: Path, limit: int, last: string, h: Path, k: nat, tr: seq<Visit>)
    returns (tr': seq<Visit>)
    requires TreeOk(root, h) && dir <= h && |dir| < k <= |h|
    ensures TagsIn(dir, last, tr') == TagsIn(dir, last, tr)
    ensures Climb(HandleTag(dir, last, limit), root, |dir|, h, k, StartAfter(h, k), tr) ==
      Climb(HandleTag(dir, last, limit), root, |dir|, h, k - 1, StartAfter(h, k - 1), tr')
  {
    var f := HandleTag(dir, last, limit);
    ClimbStep(f, root, |dir|, h, k, tr);
    LevelWalk(f, root, h, k, tr);
    BelowLast(dir, last, limit, h[..k], Level(root, h, k), tr);
    tr' := WalkAt(f, root, h[..k], StartAfter(h, k), tr).0;
  }

  /** The last level of the climb, the tags directory itself, gives the page. */
  lemma {:induction false} DirectoryLevel(root: Node, dir: Path, limit: int, last: string, h: Path, tr: seq<Visit>)
    requires TreeOk(root, h) && dir <= h && limit != 0 && TagsIn(dir, last, tr) == []
    ensures
      var (tr', flow) := Climb(HandleTag(dir, last, limit), root, |dir|, h, |dir|, StartAfter(h, |dir|), tr);
      flow == More && TagsIn(dir, last, tr') == Page(Names(Greater(Level(root, h, |dir|), Key(last))), limit)
  {
    var f := HandleTag(dir, last, limit);
    ClimbStep(f, root, |dir|, h, |dir|, tr);
    LevelWalk(f, root, h, |dir|, tr);
    LevelWellFormed(root, h, |dir|);
    assert h[..|dir|] == dir;
    CollectTags(dir, last, limit, Level(root, h, |dir|), tr);
    CollectedFromStart(Names(Greater(Level(root, h, |dir|), Key(last))), limit);
  }

  /** A walk that starts after a hint in the tags directory. */
  lemma {:induction false} HintedListing(root: Node, dir: Path, limit: int, last: string, h: Path)
    requires TreeOk(root, h) && InTree(dir, h) && limit != 0
    ensures var (tr, flow) := WalkFallback(HandleTag(dir, last, limit), root, dir, Some(h));
      flow == More && TagsIn(dir, last, tr) == Page(Names(Greater(Level(root, h, |dir|), Key(last))), limit)
  {
    var tr := BelowDirectory(root, dir, limit, last, h, |h|, []);
    DirectoryLevel(root, dir, limit, last, h, tr);
  }

  /** A plain walk of the tags directory. */
  lemma {:induction false} PlainListing(root: Node, dir: Path, limit: int, last: string)
    requires (root.Dir? ==> WellFormed(root.entries)) && limit != 0
    ensures var (tr, flow) := WalkAt(HandleTag(dir, last, limit), root, dir, "", []);
      match List(root, dir)
      case Found(es) =>
        (flow == More || flow == Stop) && TagsIn(dir, last, tr) == Page(Names(Greater(es, Key(last))), limit)
      case NotFound => flow == Missing && tr == []
      case NotADirectory => flow == Error && tr == []
  {
    ListWellFormed(root, dir);
    if List(root, dir).Found? {
      var es := List(root, dir).entries;
      CollectTags(dir, last, limit, es, []);
      CollectedFromStart(Names(Greater(es, Key(last))), limit);
    }
  }

  /** The tree of a registry. */
  ghost predicate IsTree(root: Node, dir: Path) {
    (root.Dir? ==> WellFormed(root.entries)) && IsPath(dir)
  }

  function Paged(names: seq<string>, limit: int): (seq<string>, End) {
    (Page(names, limit), if 0 < limit <= |names| then MoreTags else EndOfTags)
  }

  /** What one call answers, for any `last`: a page of the names beyond it among those the walk comes to. The path
      of `last` decides the walk. In the tags directory, it comes to the names after its first component there;
      outside, to all names or none, by its order. */
  ghost function Answer(root: Node, dir: Path, limit: int, last: string): (seq<string>, End) {
    var h := Hint(dir, last);
    if limit == 0 then ([], BadLimit)
    else if h.Some? && InTree(dir, h.value) then
      if List(root, h.value).NotADirectory? then ([], WalkError)
      else Paged(Names(Greater(Level(root, h.value, |dir|), Key(last))), limit)
    else if h.None? || Less(Render(h.value), Render(dir)) then
      match List(root, dir)
      case NotADirectory => ([], WalkError)
      case NotFound => ([], NoRepository)
      case Found(es) => Paged(Names(Greater(es, Key(last))), limit)
    else ([], EndOfTags)
  }

  /** For the first call and after a tag: the tags after `last`. A listing that goes on answers the end of the list,
      not an unknown repository, where there is no tags directory. */
  lemma {:induction false} ProperAnswer(root: Node, dir: Path, limit: int, last: string)
    requires IsTree(root, dir) && IsLast(last) && limit != 0
    requires List(root, dir).Found? ==> IsTagDirectory(root, dir, EntriesAt(root, dir))
    ensures Answer(root, dir, limit, last) ==
      match List(root, dir)
      case NotADirectory => ([], WalkError)
      case NotFound => ([], if last == "" then NoRepository else EndOfTags)
      case Found(es) => Paged(Names(Greater(es, last)), limit)
  {
    if last != "" {
      HintOfTag(dir, last);
      var h := dir + [last];
      assert h[..|dir|] == dir && h[|dir|] == last;
      ListConcat(root, dir, [last]);
      if List(root, dir).Found? {
        var es := EntriesAt(root, dir);
        ChildIsDirectory(es, last);
        ListWellFormed(root, dir);
        GreaterTwice(es, last);
      }
    }
  }

  lemma {:induction false} GreaterTwice(es: seq<Entry>, key: string)
    ensures Greater(Greater(es, key), key) == Greater(es, key)
  {
    if es != [] && !StrLt(key, es[0].name) { GreaterTwice(es[1..], key); }
  }

  lemma {:induction false} ChildIsDirectory(es: seq<Entry>, n: string)
    requires forall i :: 0 <= i < |es| ==> es[i].node.Dir?
    ensures !List(Dir(es), [n]).NotADirectory?
  {
    assert [n][1..] == [];
    if es == [] {
    } else {
      if es[0].name == n {
        assert Child(es, n) == Some(es[0].node);
      } else {
        ChildIsDirectory(es[1..], n);
      }
    }
  }

  /** One call: a page of the tags after `last`, and whether it is full. */
  method ListTags(root: Node, dir: Path, limit: int, last: string) returns (tags: seq<string>, end: End)
    requires IsTree(root, dir) && HasNoNull(last)
    ensures (tags, end) == Answer(root, dir, limit, last)
    ensures end == BadLimit <==> limit == 0
    ensures limit > 0 ==> |tags| <= limit && (end == MoreTags <==> |tags| == limit)
  {
    if limit == 0 {
      return [], BadLimit;
    }
    var hint := Hint(dir, last);
    HintIsPath(dir, last);
    var tr, flow := RunWalkFallback(HandleTag(dir, last, limit), root, dir, hint);
    AnswerOfWalk(root, dir, limit, last);
    tags := TagsIn(dir, last, tr);
    match flow
    case Missing => return tags, NoRepository;
    case Error => return tags, WalkError;
    case _ => return tags, if limit > 0 && |tags| == limit then MoreTags else EndOfTags;
  }

  /** The walk and how it ends give the answer. */
  lemma {:induction false} AnswerOfWalk(root: Node, dir: Path, limit: int, last: string)
    requires IsTree(root, dir) && limit != 0
    ensures
      var (tr, flow) := WalkFallback(HandleTag(dir, last, limit), root, dir, Hint(dir, last));
      var tags := TagsIn(dir, last, tr);
      Answer(root, dir, limit, last) ==
        (tags, if flow == Missing then NoRepository else if flow == Error then WalkError
               else if limit > 0 && |tags| == limit then MoreTags else EndOfTags)
  {
    var f, h := HandleTag(dir, last, limit), Hint(dir, last);
    if h.Some? && InTree(dir, h.value) {
      if List(root, h.value).NotADirectory? {
        FileAboveHintFails(f, root, dir, h.value);
      } else {
        HintedListing(root, dir, limit, last, h.value);
      }
    } else {
      PlainListing(root, dir, limit, last);
    }
  }

  lemma {:induction false} GreaterThanEntry(es: seq<Entry>, n: nat)
    requires WellFormed(es) && 0 < n <= |es|
    ensures Greater(es, es[n - 1].name) == es[n..]
    decreases n
  {
    if n == 1 {
      StrLtTotal(es[0].name, es[0].name);
      if |es| > 1 { assert es[1..][0] == es[1] && StrLt(es[0].name, es[1].name); }
    } else {
      StrLtTotal(es[0].name, es[n - 1].name);
      GreaterThanEntry(es[1..], n - 1);
      assert es[1..][n - 2] == es[n - 1] && es[1..][n - 1..] == es[n..];
    }
  }

  /** The tags on `calls` full pages. */
  ghost function OnPages(calls: nat, limit: nat): nat {
    if calls == 0 then 0 else OnPages(calls - 1, limit) + limit
  }

  lemma {:induction false} PagesAreProduct(calls: nat, limit: nat)
    ensures OnPages(calls, limit) == calls * limit
  {
    if calls == 0 {
    } else {
      PagesAreProduct(calls - 1, limit);
    }
  }

  lemma PageCount(total: nat, limit: nat, calls: nat)
    requires limit > 0 && OnPages(calls, limit) <= total < OnPages(calls + 1, limit)
    ensures total / limit == calls
  {
    PagesAreProduct(calls, limit);
    var rest := total - calls * limit;
    assert total == calls * limit + rest && 0 <= rest < limit;
    DivisionIs(calls, limit, rest);
  }

  lemma {:induction false} DivisionIs(q: nat, limit: nat, rest: nat)
    requires rest < limit
    ensures (q * limit + rest) / limit == q
  {
    var total := q * limit + rest;
    var p := total / limit;
    assert total == p * limit + total % limit;
    if p < q {
      MulMonotone(p + 1, q, limit);
    } else if q < p {
      MulMonotone(q + 1, p, limit);
    }
  }

  lemma MulMonotone(a: nat, b: nat, l: nat)
    requires a <= b
    ensures a * l <= b * l
  {
    assert (b - a) * l >= 0;
  }

  /** A caller that has the first `n` tags and continues after `last`. */
  ghost predicate Holds(es: seq<Entry>, tags: seq<string>, n: nat, last: string) {
    n <= |es| && tags == Names(es)[..n] && IsLast(last) && Greater(es, last) == es[n..]
  }

  /** Main result: following the pages, with `last` set to the last tag of the page before, yields every
      tag once, in order, in `n / limit + 1` calls. */
  method ListAllTags(root: Node, dir: Path, limit: nat, ghost es: seq<Entry>) returns (tags: seq<string>, calls: nat)
    requires IsTagDirectory(root, dir, es) && limit > 0
    ensures tags == Names(es)
    ensures calls == |es| / limit + 1
  {
    tags, calls := [], 0;
    var last, more := "", true;
    FirstCall(root, dir, es);
    while more
      invariant more ==> Holds(es, tags, OnPages(calls, limit), last)
      invariant !more ==> tags == Names(es) && calls == |es| / limit + 1
      decreases more, |es| - OnPages(calls, limit)
    {
      tags, last, more := NextPage(root, dir, limit, last, tags, es, OnPages(calls, limit));
      if !more { PageCount(|es|, limit, calls); }
      calls := calls + 1;
    }
  }

  lemma FirstCall(root: Node, dir: Path, es: seq<Entry>)
    requires IsTagDirectory(root, dir, es)
    ensures Holds(es, [], 0, "")
  {
    ListWellFormed(root, dir);
    EmptyLastSkipsNone(es);
  }

  /** One call of many: the page after the first `n` tags. */
  method NextPage(root: Node, dir: Path, limit: nat, last: string, tags: seq<string>, ghost es: seq<Entry>,
          ghost n: nat)
    returns (tags': seq<string>, last': string, more: bool)
    requires IsTagDirectory(root, dir, es) && limit > 0 && Holds(es, tags, n, last)
    ensures more <==> limit <= |es| - n
    ensures if more then Holds(es, tags', n + limit, last') else tags' == Names(es)
  {
    ListWellFormed(root, dir);
    AnswerAfterTag(root, dir, limit, last, es);
    var page, end := ListTags(root, dir, limit, last);
    AfterPage(es, limit, n, last, page);
    tags', more, last' := tags + page, end.MoreTags?, last;
    if more {
      last' := page[|page| - 1];
    }
  }

  lemma {:induction false} AnswerAfterTag(root: Node, dir: Path, limit: int, last: string, es: seq<Entry>)
    requires IsTagDirectory(root, dir, es) && IsLast(last) && limit != 0
    ensures HasNoNull(last) && Answer(root, dir, limit, last) == Paged(Names(Greater(es, last)), limit)
  {
    if last != "" { HintOfTag(dir, last); }
    ProperAnswer(root, dir, limit, last);
  }

  lemma NamesOfRest(es: seq<Entry>, n: nat, l: nat)
    requires n + l <= |es|
    ensures Names(es)[..n] + Names(es[n..])[..l] == Names(es)[..n + l]
    ensures l == |es| - n ==> Names(es)[..n] + Names(es[n..]) == Names(es)
  {
    forall i | 0 <= i < l ensures Names(es[n..])[i] == Names(es)[n + i] {
      assert es[n..][i] == es[n + i];
    }
  }

  /** Where a page leaves its caller. */
  lemma {:induction false} AfterPage(es: seq<Entry>, limit: nat, n: nat, last: string, page: seq<string>)
    requires limit > 0 && n <= |es| && WellFormed(es) && (forall i :: 0 <= i < |es| ==> !DotDot(es[i].name))
    requires Greater(es, last) == es[n..] && page == Page(Names(Greater(es, last)), limit)
    ensures limit <= |es| - n ==>
      && |page| == limit && Names(es)[..n] + page == Names(es)[..n + limit]
      && IsLast(page[limit - 1]) && Greater(es, page[limit - 1]) == es[n + limit..]
    ensures limit > |es| - n ==> Names(es)[..n] + page == Names(es)
  {
    if limit <= |es| - n {
      NamesOfRest(es, n, limit);
      LastOfPage(es, limit, n);
    } else {
      NamesOfRest(es, n, |es| - n);
    }
  }

  lemma {:induction false} LastOfPage(es: seq<Entry>, limit: nat, n: nat)
    requires 0 < limit <= |es| - n && WellFormed(es) && (forall i :: 0 <= i < |es| ==> !DotDot(es[i].name))
    ensures var name := Names(es[n..])[..limit][limit - 1]; IsLast(name) && Greater(es, name) == es[n + limit..]
  {
    assert Names(es[n..])[..limit][limit - 1] == es[n..][limit - 1].name == es[n + limit - 1].name;
    GreaterThanEntry(es, n + limit);
  }
}
