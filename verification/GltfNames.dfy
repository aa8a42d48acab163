/**
 * What the ids of a glTF scene spell (apps/api/src/gltf-parser.ts): slugs from names, and paths from slugs.
 */
module GltfNames {
  import opened Wrappers
  import opened Strings
  import opened Gltf
  import opened GltfIdentity

  // --------------------------------------------------------------------------- slugs

  function WordRun(s: string): (n: nat)
    ensures n <= |s| && (forall k :: 0 <= k < n ==> IsSlugChar(s[k])) && (n < |s| ==> !IsSlugChar(s[n]))
    ensures s != [] && IsSlugChar(s[0]) ==> n > 0
  {
    if s != [] && IsSlugChar(s[0]) then 1 + WordRun(s[1..]) else 0
  }

  /** The maximal runs of slug characters, in order. */
  function Words(s: string): (ws: seq<string>)
    decreases |s|
  {
    if s == [] then []
    else if IsSlugChar(s[0]) then [s[..WordRun(s)]] + Words(s[WordRun(s)..])
    else Words(s[1..])
  }

  /** A dash in front of the words, where a run of other characters stands there and has none yet. */
  function Lead(s: string, inRun: bool): string { if !inRun && s != [] && !IsSlugChar(s[0]) then "-" else "" }

  /** A dash after the words, where other characters stand there. */
  function Trail(s: string): string { if Words(s) != [] && !IsSlugChar(s[|s| - 1]) then "-" else "" }

  lemma {:induction false} DashesOfWord(s: string, n: nat)
    requires n <= WordRun(s) && 0 < n
    ensures Dashes(s, false) == s[..n] + Dashes(s[n..], false)
    ensures Dashes(s, true) == s[..n] + Dashes(s[n..], false)
  {
    if n == 1 {
      assert s[..1] == [s[0]];
    } else {
      DashesOfWord(s[1..], n - 1);
      assert s[..n] == [s[0]] + s[1..][..n - 1] && s[1..][n - 1..] == s[n..];
      Assoc([s[0]], s[1..][..n - 1], Dashes(s[n..], false));
    }
  }

  lemma {:induction false} NoWords(s: string)
    requires Words(s) == []
    ensures forall k :: 0 <= k < |s| ==> !IsSlugChar(s[k])
    decreases |s|
  {
    if s != [] {
      NoWords(s[1..]);
      assert forall k :: 1 <= k < |s| ==> s[k] == s[1..][k - 1];
    }
  }

  /** Dashes between the words, and perhaps one at either end. */
  lemma {:induction false} DashesAreWords(s: string, inRun: bool)
    ensures Dashes(s, inRun) == Lead(s, inRun) + Join(Words(s), "-") + Trail(s)
    decreases |s|
  {
    if s == [] {
    } else if IsSlugChar(s[0]) {
      var n := WordRun(s);
      var word, rest := s[..n], s[n..];
      DashesOfWord(s, n);
      DashesAreWords(rest, false);
      WordJoins(word, Words(rest));
      if rest == [] {
        assert word == s;
      } else {
        assert rest[|rest| - 1] == s[|s| - 1];
        assert Lead(rest, false) == "-";
        if Words(rest) == [] { NoWords(rest); }
      }
      WordEnds(word, Lead(rest, false), Words(rest), Trail(rest), Trail(s));
      assert "" + Join(Words(s), "-") == Join(Words(s), "-");
    } else {
      DashesAreWords(s[1..], true);
      assert |s| > 1 ==> s[1..][|s| - 2] == s[|s| - 1];
      assert Lead(s[1..], true) == "";
      assert "" + Join(Words(s), "-") == Join(Words(s), "-");
      if inRun { assert [] + Dashes(s[1..], true) == Dashes(s[1..], true); } else { Assoc("-", Join(Words(s), "-"), Trail(s)); }
    }
  }

  lemma WordJoins(word: string, rest: seq<string>)
    ensures Join([word] + rest, "-") == if rest == [] then word else word + "-" + Join(rest, "-")
  {
    assert ([word] + rest)[1..] == rest;
  }

  lemma WordEnds(word: string, lead: string, rest: seq<string>, trail: string, trailAll: string)
    requires lead == "" ==> rest == [] && trail == "" && trailAll == ""
    requires lead != "" ==> lead == "-" && if rest == [] then trail == "" && trailAll == "-" else trailAll == trail
    ensures word + (lead + Join(rest, "-") + trail) == Join([word] + rest, "-") + trailAll
  {
    WordJoins(word, rest);
  }

  predicate IsWord(w: string) { w != [] && forall k :: 0 <= k < |w| ==> IsSlugChar(w[k]) }

  lemma {:induction false} WordsAreWords(s: string)
    ensures forall k :: 0 <= k < |Words(s)| ==> IsWord(Words(s)[k])
    decreases |s|
  {
    if s != [] {
      if IsSlugChar(s[0]) { WordsAreWords(s[WordRun(s)..]); } else { WordsAreWords(s[1..]); }
    }
  }

  lemma {:induction false} JoinedEnds(ws: seq<string>)
    requires ws != [] && forall k :: 0 <= k < |ws| ==> IsWord(ws[k])
    ensures var j := Join(ws, "-"); j != [] && IsSlugChar(j[0]) && IsSlugChar(j[|j| - 1])
  {
    assert IsWord(ws[0]);
    if |ws| > 1 {
      var rest := ws[1..];
      forall k | 0 <= k < |rest| ensures IsWord(rest[k]) { assert rest[k] == ws[k + 1]; }
      JoinedEnds(rest);
      var j := Join(ws, "-");
      assert j == ws[0] + "-" + Join(rest, "-");
      assert j[0] == ws[0][0] && j[|j| - 1] == Join(rest, "-")[|Join(rest, "-")| - 1];
    }
  }

  /** Taking one outer dash off either end. */
  function Undashed(dashed: string): string {
    var left := if dashed != [] && dashed[0] == '-' then dashed[1..] else dashed;
    if left != [] && left[|left| - 1] == '-' then left[..|left| - 1] else left
  }

  lemma UndashedCore(lead: string, core: string, trail: string)
    requires (lead == "" || lead == "-") && (trail == "" || trail == "-")
    requires core != [] && core[0] != '-' && core[|core| - 1] != '-'
    ensures Undashed(lead + core + trail) == core
  {
    var dashed := lead + core + trail;
    if lead == "-" {
      assert dashed[0] == '-' && dashed[1..] == core + trail;
    } else {
      assert dashed == core + trail && dashed[0] == core[0];
    }
    var left := core + trail;
    if trail == "-" {
      assert left[|left| - 1] == '-' && left[..|left| - 1] == core;
    } else {
      assert left == core;
    }
  }

  /**
   * A slug is the words of the name in lower case, maximal runs of `a`-`z` and digits, with a dash between any two, or
   * `node` where there are none.
   */
  lemma SlugIsWords(name: string)
    ensures Slugify(name) == if Words(LowerAll(name)) == [] then "node" else Join(Words(LowerAll(name)), "-")
  {
    hide *;
    var s := LowerAll(name);
    SlugIsUndashed(name);
    DashesAreWords(s, false);
    DashShape(s, false);
    WordsAreWords(s);
    if Words(s) == [] {
      NoCore(s);
    } else {
      JoinedEnds(Words(s));
      NotDashes(Join(Words(s), "-"));
      UndashedCore(Lead(s, false), Join(Words(s), "-"), Trail(s));
    }
  }

  lemma SlugIsUndashed(name: string)
    ensures var core := Undashed(Dashes(LowerAll(name), false)); Slugify(name) == if core == [] then "node" else core
  {
    hide Dashes, LowerAll;
  }

  lemma DashShape(s: string, inRun: bool)
    ensures (Lead(s, inRun) == "" || Lead(s, inRun) == "-") && (Trail(s) == "" || Trail(s) == "-")
  {
    hide Words;
  }

  lemma NotDashes(core: string)
    requires core != [] && IsSlugChar(core[0]) && IsSlugChar(core[|core| - 1])
    ensures core[0] != '-' && core[|core| - 1] != '-'
  {
  }

  lemma NoCore(s: string)
    requires Words(s) == []
    ensures Undashed(Lead(s, false) + Join(Words(s), "-") + Trail(s)) == []
  {
    hide Words;
    assert Join(Words(s), "-") == [] && Trail(s) == [];
    assert Lead(s, false) + [] + [] == Lead(s, false);
  }

  function Upper(c: char): char { if 'a' <= c <= 'z' then c - 'a' + 'A' else c }

  function Uppered(s: string): (t: string)
    ensures |t| == |s| && forall k :: 0 <= k < |s| ==> t[k] == Upper(s[k])
  {
    seq(|s|, k requires 0 <= k < |s| => Upper(s[k]))
  }

  lemma {:induction false} UpperedLowers(s: string)
    ensures LowerAll(Uppered(s)) == LowerAll(s)
  {
    if s != [] {
      assert Uppered(s)[1..] == Uppered(s[1..]);
      UpperedLowers(s[1..]);
    }
  }

  lemma {:induction false} WordsOfWord(w: string)
    requires IsWord(w)
    ensures Words(w) == [w] && LowerAll(w) == w
  {
    WholeRun(w);
    assert w[|w|..] == [] && w[..|w|] == w;
  }

  lemma {:induction false} WholeRun(w: string)
    requires forall k :: 0 <= k < |w| ==> IsSlugChar(w[k])
    ensures WordRun(w) == |w| && LowerAll(w) == w
  {
    if w != [] { WholeRun(w[1..]); }
  }

  lemma JoinOne(w: string)
    ensures Join([w], "-") == w
  {
  }

  /** A slug does not tell upper case from lower case, and a word of slug characters is its own slug. */
  lemma SlugIgnoresCase(name: string)
    ensures Slugify(Uppered(name)) == Slugify(name)
    ensures IsWord(name) ==> Slugify(name) == name
  {
    hide *;
    UpperedLowers(name);
    SlugIsWords(name);
    SlugIsWords(Uppered(name));
    if IsWord(name) {
      WordsOfWord(name);
      JoinOne(name);
    }
  }

  // ----------------------------------------------------------------------------- ids

  /** The base itself if it is free, else the base with the first free number. */
  ghost predicate Spelled(taken: set<string>, base: string, id: string) {
    if base !in taken then id == base
    else exists n: nat :: n >= 1 && id == base + "-" + Decimal(n) && id !in taken
                          && forall j: nat :: 1 <= j < n ==> base + "-" + Decimal(j) in taken
  }

  lemma UniqueSpells(taken: set<string>, base: string)
    ensures Spelled(taken, base, Unique(taken, base))
  {
    if base in taken {
      var n := FirstFree(taken, base, 1);
      assert Unique(taken, base) == Numbered(base, n);
      forall j: nat | 1 <= j < n ensures base + "-" + Decimal(j) in taken { assert Numbered(base, j) in taken; }
    }
  }

  /** The path below which a visit's own is put: its parent's id, but for top-level nodes none. */
  function PathAbove(doc: Document, parent: Option<string>): string
    requires doc.HasScene()
  {
    if parent.None? || parent == RootParent(doc) then "" else parent.value
  }

  /** The visit's id is the slug of its node's name, below its parent's id and a dot, made unique among the ids before. */
  ghost predicate NamedWell(doc: Document, vs: seq<Visit>, k: nat)
    requires doc.HasScene() && k < |vs|
  {
    var v := vs[k];
    if !doc.InRange(v.node) then k == 0 && v.id == Slugify(SceneName(doc)) && v.parent.None?
    else
      var slug := Slugify(NameOf(doc, v.node));
      var above := PathAbove(doc, v.parent);
      Spelled(Ids(vs[..k]), if above == "" then slug else above + "." + slug, v.id)
  }

  ghost predicate AllNamedWell(doc: Document, vs: seq<Visit>)
    requires doc.HasScene()
  {
    && (forall k: nat :: k < |vs| ==> NamedWell(doc, vs, k))
    && (RootParent(doc).Some? ==> vs != [] && RootParent(doc).value in Ids(vs))
  }

  lemma NamedPush(doc: Document, done: seq<Visit>, v: Visit)
    requires doc.HasScene() && AllNamedWell(doc, done) && NamedWell(doc, done + [v], |done|)
    requires done == [] ==> RootParent(doc).None?
    ensures AllNamedWell(doc, done + [v])
  {
    var vs := done + [v];
    IdsPush(done, v);
    forall k: nat | k < |vs| ensures NamedWell(doc, vs, k) {
      if k < |done| { assert NamedWell(doc, done, k) && vs[..k] == done[..k]; }
    }
  }

  lemma {:induction false} WalkNamesWell(doc: Document, rank: seq<nat>, i: int, parent: Option<string>, done: seq<Visit>)
    requires Ranks(doc.nodes, rank) && (doc.InRange(i) ==> rank[i] > 0) && doc.HasScene() && AllNamedWell(doc, done)
    ensures AllNamedWell(doc, Walk(doc, rank, i, parent, PathAbove(doc, parent), done))
    decreases if doc.InRange(i) then rank[i] + 1 else 0, 1, 0
  {
    if doc.InRange(i) {
      var base := BasePath(doc, i, PathAbove(doc, parent));
      var id := Unique(Ids(done), base);
      var v := Visit(id, parent, i);
      UniqueSpells(Ids(done), base);
      assert (done + [v])[..|done|] == done && (done + [v])[|done|] == v;
      NamedPush(doc, done, v);
      assert PathAbove(doc, Some(id)) == id;
      WalkAllNamesWell(doc, rank, rank[i], doc.nodes[i].children, Some(id), done + [v]);
    }
  }

  lemma {:induction false} WalkAllNamesWell(doc: Document, rank: seq<nat>, top: nat, list: seq<int>, parent: Option<string>, done: seq<Visit>)
    requires Ranks(doc.nodes, rank) && (forall c :: c in list && doc.InRange(c) ==> 0 < rank[c] < top) && doc.HasScene() && AllNamedWell(doc, done)
    ensures AllNamedWell(doc, WalkAll(doc, rank, top, list, parent, PathAbove(doc, parent), done))
    decreases top + 1, 0, |list|
  {
    if list != [] {
      WalkNamesWell(doc, rank, list[0], parent, done);
      WalkAllNamesWell(doc, rank, top, list[1..], parent, Walk(doc, rank, list[0], parent, PathAbove(doc, parent), done));
    }
  }

  /** Every id of a document is its node's slug below its parent's id, made unique; the synthetic root's is the scene's slug. */
  lemma VisitsNameWell(doc: Document, k: nat)
    requires Ends(doc) && k < |Visits(doc)|
    ensures doc.HasScene() && NamedWell(doc, Visits(doc), k)
  {
    var rank := RankOf(doc);
    var done := Synthetic(doc);
    if |doc.Roots()| > 1 { IdsPush([], done[0]); assert [] + [done[0]] == done; }
    assert AllNamedWell(doc, done);
    assert PathAbove(doc, RootParent(doc)) == "";
    WalkAllNamesWell(doc, rank, Above(rank), doc.Roots(), RootParent(doc), done);
  }

  // ------------------------------------------------------------------ children in order

  /** The nodes visited right below an id, in the order of their visits. */
  function Kids(vs: seq<Visit>, parent: Option<string>): seq<int> {
    if vs == [] then []
    else Kids(vs[..|vs| - 1], parent) + if vs[|vs| - 1].parent == parent then [vs[|vs| - 1].node] else []
  }

  /** The listed nodes that are there. */
  function Present(doc: Document, list: seq<int>): seq<int> {
    if list == [] then [] else (if doc.InRange(list[0]) then [list[0]] else []) + Present(doc, list[1..])
  }

  /** From `from` on, what is visited below each visit is what its node lists, in that order and as often. */
  ghost predicate Ordered(doc: Document, vs: seq<Visit>, from: nat) {
    forall k :: from <= k < |vs| && doc.InRange(vs[k].node) ==> Kids(vs, Some(vs[k].id)) == Present(doc, doc.nodes[vs[k].node].children)
  }

  /** Nothing is visited below an id that nobody has. */
  ghost predicate KnownParents(vs: seq<Visit>) { forall k :: 0 <= k < |vs| && vs[k].parent.Some? ==> vs[k].parent.value in Ids(vs) }

  lemma {:induction false} NoKids(vs: seq<Visit>, parent: Option<string>)
    requires forall k :: 0 <= k < |vs| ==> vs[k].parent != parent
    ensures Kids(vs, parent) == []
  {
    if vs != [] { NoKids(vs[..|vs| - 1], parent); }
  }

  lemma KidsPush(vs: seq<Visit>, v: Visit, parent: Option<string>)
    ensures Kids(vs + [v], parent) == Kids(vs, parent) + if v.parent == parent then [v.node] else []
  {
    assert (vs + [v])[..|vs|] == vs;
  }

  /** The ids of `done` get the children that were walked under them, and no others. */
  ghost predicate Grows(doc: Document, done: seq<Visit>, vs: seq<Visit>, parent: Option<string>, list: seq<int>) {
    && done <= vs && Ids(done) <= Ids(vs) && KnownParents(vs)
    && (forall k :: |done| <= k < |vs| ==> vs[k].id !in Ids(done))
    && (forall p: Option<string> :: (p.Some? ==> p.value in Ids(done)) ==>
          Kids(vs, p) == Kids(done, p) + if p == parent then Present(doc, list) else [])
  }

  lemma PushGrows(doc: Document, done: seq<Visit>, v: Visit)
    requires KnownParents(done) && v.id !in Ids(done) && doc.InRange(v.node) && (v.parent.Some? ==> v.parent.value in Ids(done))
    ensures Grows(doc, done, done + [v], v.parent, [v.node]) && Ids(done + [v]) == Ids(done) + {v.id}
    ensures Kids(done + [v], Some(v.id)) == []
  {
    IdsPush(done, v);
    assert [v.node][1..] == [] && Present(doc, [v.node]) == [v.node] + [];
    assert [v.node] + [] == [v.node];
    forall p: Option<string> ensures Kids(done + [v], p) == Kids(done, p) + if v.parent == p then [v.node] else [] { KidsPush(done, v, p); }
    forall k | 0 <= k < |done| ensures done[k].parent != Some(v.id) { }
    NoKids(done, Some(v.id));
    forall k | 0 <= k < |done| ensures (done + [v])[k] == done[k] { }
  }

  lemma PushKnows(done: seq<Visit>, v: Visit)
    requires KnownParents(done) && (v.parent.Some? ==> v.parent.value in Ids(done))
    ensures KnownParents(done + [v])
  {
    IdsPush(done, v);
  }

  lemma GrowsAt(doc: Document, done: seq<Visit>, vs: seq<Visit>, parent: Option<string>, list: seq<int>, p: Option<string>)
    requires Grows(doc, done, vs, parent, list) && (p.Some? ==> p.value in Ids(done))
    ensures Kids(vs, p) == Kids(done, p) + (if p == parent then Present(doc, list) else []) && (p.Some? ==> p.value in Ids(vs))
  {
    hide Kids, Present, KnownParents;
  }

  lemma GrowsOnAt(doc: Document, done: seq<Visit>, mid: seq<Visit>, vs: seq<Visit>, parent: Option<string>, a: seq<int>, b: seq<int>, p: Option<string>)
    requires Grows(doc, done, mid, parent, a) && Grows(doc, mid, vs, parent, b) && Present(doc, a + b) == Present(doc, a) + Present(doc, b)
    requires p.Some? ==> p.value in Ids(done)
    ensures Kids(vs, p) == Kids(done, p) + if p == parent then Present(doc, a + b) else []
  {
    hide *;
    GrowsAt(doc, done, mid, parent, a, p);
    GrowsAt(doc, mid, vs, parent, b, p);
  }

  lemma GrowsOn(doc: Document, done: seq<Visit>, mid: seq<Visit>, vs: seq<Visit>, parent: Option<string>, a: seq<int>, b: seq<int>)
    requires Grows(doc, done, mid, parent, a) && Grows(doc, mid, vs, parent, b) && Present(doc, a + b) == Present(doc, a) + Present(doc, b)
    ensures Grows(doc, done, vs, parent, a + b)
  {
    forall p: Option<string> | p.Some? ==> p.value in Ids(done)
      ensures Kids(vs, p) == Kids(done, p) + if p == parent then Present(doc, a + b) else []
    {
      GrowsOnAt(doc, done, mid, vs, parent, a, b, p);
    }
    NewIds(doc, done, mid, vs, parent, a, b);
    hide Kids, Present, KnownParents, Ids;
  }

  lemma NewIds(doc: Document, done: seq<Visit>, mid: seq<Visit>, vs: seq<Visit>, parent: Option<string>, a: seq<int>, b: seq<int>)
    requires Grows(doc, done, mid, parent, a) && Grows(doc, mid, vs, parent, b)
    ensures done <= vs && Ids(done) <= Ids(vs) && KnownParents(vs) && forall k :: |done| <= k < |vs| ==> vs[k].id !in Ids(done)
  {
    hide Kids, Present, KnownParents, Ids;
    forall k | |done| <= k < |vs| ensures vs[k].id !in Ids(done) { if k < |mid| { assert vs[k] == mid[k]; } }
  }

  lemma GrowsBelow(doc: Document, done: seq<Visit>, v: Visit, vs: seq<Visit>, list: seq<int>)
    requires Grows(doc, done, done + [v], v.parent, [v.node]) && Grows(doc, done + [v], vs, Some(v.id), list)
    requires v.id !in Ids(done) && Ids(done + [v]) == Ids(done) + {v.id} && Kids(done + [v], Some(v.id)) == []
    ensures Grows(doc, done, vs, v.parent, [v.node]) && Kids(vs, Some(v.id)) == Present(doc, list)
  {
    var mid := done + [v];
    forall k | |done| <= k < |vs| ensures vs[k].id !in Ids(done) { if k < |mid| { assert vs[k] == mid[k] == v; } }
    forall p: Option<string> | p.Some? ==> p.value in Ids(done)
      ensures Kids(vs, p) == Kids(done, p) + if p == v.parent then Present(doc, [v.node]) else []
    {
      assert p != Some(v.id);
      assert Kids(vs, p) == Kids(mid, p) + [];
    }
    assert Kids(vs, Some(v.id)) == [] + Present(doc, list);
  }

  /** What was ordered stays so while others are walked. */
  lemma OrderedStays(doc: Document, mid: seq<Visit>, vs: seq<Visit>, from: nat, parent: Option<string>, list: seq<int>)
    requires from <= |mid| && Ordered(doc, mid, from) && Grows(doc, mid, vs, parent, list) && Ordered(doc, vs, |mid|)
    requires forall k :: from <= k < |mid| ==> Some(mid[k].id) != parent
    ensures Ordered(doc, vs, from)
  {
    forall k | from <= k < |vs| && doc.InRange(vs[k].node)
      ensures Kids(vs, Some(vs[k].id)) == Present(doc, doc.nodes[vs[k].node].children)
    {
      if k < |mid| {
        assert vs[k] == mid[k] && mid[k] in mid && mid[k].id in Ids(mid);
        assert Kids(vs, Some(mid[k].id)) == Kids(mid, Some(mid[k].id)) + [];
      }
    }
  }

  lemma {:induction false} WalkOrders(doc: Document, rank: seq<nat>, i: int, parent: Option<string>, path: string, done: seq<Visit>)
    requires Ranks(doc.nodes, rank) && (doc.InRange(i) ==> rank[i] > 0) && KnownParents(done) && (parent.Some? ==> parent.value in Ids(done))
    ensures var vs := Walk(doc, rank, i, parent, path, done); Grows(doc, done, vs, parent, [i]) && Ordered(doc, vs, |done|)
    decreases if doc.InRange(i) then rank[i] + 1 else 0, 1, 0
  {
    if doc.InRange(i) {
      var id := Unique(Ids(done), BasePath(doc, i, path));
      var v := Visit(id, parent, i);
      var list := doc.nodes[i].children;
      assert forall c :: c in list && doc.InRange(c) ==> 0 < rank[c] < rank[i];
      var vs := WalkAll(doc, rank, rank[i], list, Some(id), id, done + [v]);
      assert vs == Walk(doc, rank, i, parent, path, done);
      hide Grows, KnownParents, Ids, Kids, Present, Ordered, Walk, WalkAll, Ranks;
      PushGrows(doc, done, v);
      PushKnows(done, v);
      WalkAllOrders(doc, rank, rank[i], list, Some(id), id, done + [v]);
      GrowsBelow(doc, done, v, vs, list);
      OrderedPush(doc, done, v, vs);
    } else {
      NothingGrows(doc, done, parent, [i]);
    }
  }

  lemma OrderedPush(doc: Document, done: seq<Visit>, v: Visit, vs: seq<Visit>)
    requires done + [v] <= vs && Ordered(doc, vs, |done| + 1) && doc.InRange(v.node)
    requires Kids(vs, Some(v.id)) == Present(doc, doc.nodes[v.node].children)
    ensures Ordered(doc, vs, |done|)
  {
    hide Kids, Present;
    assert vs[|done|] == v;
  }

  lemma NothingGrows(doc: Document, done: seq<Visit>, parent: Option<string>, list: seq<int>)
    requires KnownParents(done) && (list == [] || (|list| == 1 && !doc.InRange(list[0])))
    ensures Grows(doc, done, done, parent, list)
  {
    assert Present(doc, list) == [];
    forall p: Option<string> ensures Kids(done, p) == Kids(done, p) + [] { }
  }

  lemma {:induction false} WalkAllOrders(doc: Document, rank: seq<nat>, top: nat, list: seq<int>, parent: Option<string>, path: string,
                                         done: seq<Visit>)
    requires Ranks(doc.nodes, rank) && (forall c :: c in list && doc.InRange(c) ==> 0 < rank[c] < top)
    requires KnownParents(done) && (parent.Some? ==> parent.value in Ids(done))
    ensures var vs := WalkAll(doc, rank, top, list, parent, path, done); Grows(doc, done, vs, parent, list) && Ordered(doc, vs, |done|)
    decreases top + 1, 0, |list|
  {
    if list == [] {
      NothingGrows(doc, done, parent, list);
    } else {
      WalkOrders(doc, rank, list[0], parent, path, done);
      var mid := Walk(doc, rank, list[0], parent, path, done);
      WalkAllOrders(doc, rank, top, list[1..], parent, path, mid);
      var vs := WalkAll(doc, rank, top, list[1..], parent, path, mid);
      PresentCons(doc, list);
      GrowsOn(doc, done, mid, vs, parent, [list[0]], list[1..]);
      forall k | |done| <= k < |mid| ensures Some(mid[k].id) != parent { }
      OrderedStays(doc, mid, vs, |done|, parent, list[1..]);
    }
  }

  lemma PresentCons(doc: Document, list: seq<int>)
    requires list != []
    ensures [list[0]] + list[1..] == list && Present(doc, list) == Present(doc, [list[0]]) + Present(doc, list[1..])
  {
    assert [list[0]][1..] == [];
  }

  /**
   * The visits below a visit are those of the nodes its node lists, in that order and as often, and the same holds of
   * the top level.
   */
  lemma VisitsInOrder(doc: Document, k: nat)
    requires Ends(doc) && k < |Visits(doc)|
    ensures doc.HasScene() && Kids(Visits(doc), RootParent(doc)) == Present(doc, doc.Roots())
    ensures var v := Visits(doc)[k];
      doc.InRange(v.node) ==> Kids(Visits(doc), Some(v.id)) == Present(doc, doc.nodes[v.node].children)
  {
    var rank := RankOf(doc);
    var done, parent := Synthetic(doc), RootParent(doc);
    StartKnown(doc);
    hide Grows, KnownParents, Ids, Kids, Present, Synthetic, RootParent, RanksWalk;
    assert Ranks(doc.nodes, rank) && (forall c :: c in doc.Roots() && doc.InRange(c) ==> 0 < rank[c] < Above(rank)) by { RootsRanked(doc, rank); }
    WalkAllOrders(doc, rank, Above(rank), doc.Roots(), parent, "", done);
    GrowsAt(doc, done, Visits(doc), parent, doc.Roots(), parent);
    Prefix(doc, done, Visits(doc), parent, doc.Roots());
    assert [] + Present(doc, doc.Roots()) == Present(doc, doc.Roots());
    if k < |done| { assert Visits(doc)[k] == done[k]; }
  }

  lemma RootsRanked(doc: Document, rank: seq<nat>)
    requires RanksWalk(doc, rank)
    ensures Ranks(doc.nodes, rank) && forall c :: c in doc.Roots() && doc.InRange(c) ==> 0 < rank[c] < Above(rank)
  {
  }

  lemma Prefix(doc: Document, done: seq<Visit>, vs: seq<Visit>, parent: Option<string>, list: seq<int>)
    requires Grows(doc, done, vs, parent, list)
    ensures done <= vs
  {
    hide Kids, Present, KnownParents, Ids;
  }

  /** Before the walk there is at most the synthetic root. */
  lemma StartKnown(doc: Document)
    requires doc.HasScene()
    ensures var done, parent := Synthetic(doc), RootParent(doc);
      && KnownParents(done) && (parent.Some? ==> parent.value in Ids(done)) && Kids(done, parent) == []
      && forall k :: 0 <= k < |done| ==> !doc.InRange(done[k].node)
  {
    hide KnownParents, Ids, Kids, Slugify;
    NoStart();
    if |doc.Roots()| > 1 { OneStart(Synthetic(doc)[0]); }
  }

  lemma NoStart()
    ensures KnownParents([]) && Kids([], None) == []
  {
  }

  lemma OneStart(v: Visit)
    requires v.parent.None?
    ensures KnownParents([v]) && v.id in Ids([v]) && Kids([v], Some(v.id)) == []
  {
    assert v in [v];
    assert Kids([v][..0], Some(v.id)) == [];
  }
}
