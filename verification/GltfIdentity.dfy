/**
 * Entity ids of a glTF scene: the walk of the parser (apps/api/src/gltf-parser.ts) and the separately written
 * walk of the merge (apps/api/src/merge/gltf-resolve.ts) must name the same nodes alike.
 */
module GltfIdentity {
  import opened Wrappers
  import opened Strings
  import opened OrderedMaps
  import opened Gltf

  // -------------------------------------------------------------- unique paths

  function Numbered(base: string, i: nat): string { base + "-" + Decimal(i) }

  lemma NumberedInjective(base: string, i: nat, j: nat)
    requires Numbered(base, i) == Numbered(base, j)
    ensures i == j
  {
    assert Numbered(base, i)[|base| + 1..] == Decimal(i) && Numbered(base, j)[|base| + 1..] == Decimal(j);
    DecimalInjective(i, j);
  }

  function Tried(base: string, i: nat): set<string> { set j | 1 <= j < i :: Numbered(base, j) }

  lemma TryNext(base: string, i: nat)
    requires i >= 1
    ensures Numbered(base, i) !in Tried(base, i) && Tried(base, i + 1) == Tried(base, i) + {Numbered(base, i)}
  {
    if Numbered(base, i) in Tried(base, i) {
      var j :| 1 <= j < i && Numbered(base, j) == Numbered(base, i);
      NumberedInjective(base, i, j);
      assert false;
    }
    forall s ensures s in Tried(base, i + 1) <==> s in Tried(base, i) + {Numbered(base, i)} {
      if s in Tried(base, i + 1) {
        var j :| 1 <= j < i + 1 && s == Numbered(base, j);
      }
    }
  }

  /** The first number from `i` on whose path is free. */
  function FirstFree(seen: set<string>, base: string, i: nat): (r: nat)
    requires i >= 1
    ensures i <= r && Numbered(base, r) !in seen
    ensures forall j :: i <= j < r ==> Numbered(base, j) in seen
    decreases seen - Tried(base, i)
  {
    TryNext(base, i);
    if Numbered(base, i) in seen then FirstFree(seen, base, i + 1) else i
  }

  function Unique(seen: set<string>, base: string): (p: string)
    ensures p !in seen
  {
    if base !in seen then base else Numbered(base, FirstFree(seen, base, 1))
  }

  /** The `seenPaths` of one walk. */
  class Paths {
    var seen: set<string>

    constructor ()
      ensures seen == {}
    {
      seen := {};
    }

    method UniquePath(base: string) returns (p: string)
      modifies this
      ensures p == Unique(old(seen), base) && p !in old(seen) && seen == old(seen) + {p}
    {
      if base !in seen {
        seen := seen + {base};
        return base;
      }
      var i := 1;
      while Numbered(base, i) in seen
        invariant seen == old(seen) && i >= 1 && FirstFree(seen, base, i) == FirstFree(seen, base, 1)
        decreases seen - Tried(base, i)
      {
        TryNext(base, i);
        i := i + 1;
      }
      p := Numbered(base, i);
      seen := seen + {p};
    }
  }

  // ----------------------------------------------------------------- the visits

  /** One entity: its id, that of its parent, and its node, -1 for the synthetic root. */
  datatype Visit = Visit(id: string, parent: Option<string>, node: int)

  function Ids(vs: seq<Visit>): set<string> { set v | v in vs :: v.id }

  function NameOf(doc: Document, i: int): string
    requires doc.InRange(i)
  {
    if doc.nodes[i].name.Some? then doc.nodes[i].name.value else "node-" + Decimal(i)
  }

  function BasePath(doc: Document, i: int, path: string): string
    requires doc.InRange(i)
  {
    if path == "" then Slugify(NameOf(doc, i)) else path + "." + Slugify(NameOf(doc, i))
  }

  /** The visits `done`, then those of the node `i` under `parent`, in preorder. */
  ghost function Walk(doc: Document, rank: seq<nat>, i: int, parent: Option<string>, path: string, done: seq<Visit>): (r: seq<Visit>)
    requires Ranks(doc.nodes, rank) && (doc.InRange(i) ==> rank[i] > 0)
    ensures done <= r
    decreases if doc.InRange(i) then rank[i] + 1 else 0, 1, 0
  {
    if !doc.InRange(i) then done
    else
      var id := Unique(Ids(done), BasePath(doc, i, path));
      WalkAll(doc, rank, rank[i], doc.nodes[i].children, Some(id), id, done + [Visit(id, parent, i)])
  }

  ghost function WalkAll(doc: Document, rank: seq<nat>, top: nat, list: seq<int>, parent: Option<string>, path: string,
                         done: seq<Visit>): (r: seq<Visit>)
    requires Ranks(doc.nodes, rank) && forall c :: c in list && doc.InRange(c) ==> 0 < rank[c] < top
    ensures done <= r
    decreases top + 1, 0, |list|
  {
    if list == [] then done
    else WalkAll(doc, rank, top, list[1..], parent, path, Walk(doc, rank, list[0], parent, path, done))
  }

  function SceneName(doc: Document): string
    requires doc.HasScene()
  {
    if doc.DefaultScene().name.Some? then doc.DefaultScene().name.value else "scene"
  }

  /** The synthetic root that several top-level nodes get. */
  function Synthetic(doc: Document): seq<Visit>
    requires doc.HasScene()
  {
    if |doc.Roots()| > 1 then [Visit(Slugify(SceneName(doc)), None, -1)] else []
  }

  function RootParent(doc: Document): Option<string>
    requires doc.HasScene()
  {
    if |doc.Roots()| > 1 then Some(Slugify(SceneName(doc))) else None
  }

  ghost function Visits(doc: Document): seq<Visit>
    requires Ends(doc)
  {
    if !doc.HasScene() then []
    else
      var rank := RankOf(doc);
      WalkAll(doc, rank, Above(rank), doc.Roots(), RootParent(doc), "", Synthetic(doc))
  }

  lemma IdsPush(vs: seq<Visit>, v: Visit)
    ensures Ids(vs + [v]) == Ids(vs) + {v.id}
  {
    forall s ensures s in Ids(vs + [v]) <==> s in Ids(vs) + {v.id} {
      if s in Ids(vs) {
        var w :| w in vs && w.id == s;
        assert w in vs + [v];
      }
      if s == v.id { assert v in vs + [v]; }
    }
  }

  // ------------------------------------------------------------------ the parser

  datatype Entity = Entity(entityId: string, parentEntityId: Option<string>, kind: string, name: string, path: string,
                           transform: Option<nat>, meshIndex: Option<int>)

  /** The entity of a visit. */
  function EntityOf(doc: Document, v: Visit): Entity
    requires doc.HasScene() && (v.node == -1 || doc.InRange(v.node))
  {
    if v.node == -1 then Entity(v.id, v.parent, "assembly", SceneName(doc), v.id, None, None)
    else
      var node := doc.nodes[v.node];
      var kind := if |node.children| > 0 then "assembly" else if node.mesh.Some? then "part" else "module";
      Entity(v.id, v.parent, kind, NameOf(doc, v.node), v.id, node.transform, node.mesh)
  }

  /** `entities` are those of the visits `vs`, one by one. */
  predicate Parsed(doc: Document, entities: seq<Entity>, vs: seq<Visit>)
    requires doc.HasScene()
  {
    && |entities| == |vs|
    && forall k :: 0 <= k < |vs| ==> (vs[k].node == -1 || doc.InRange(vs[k].node)) && entities[k] == EntityOf(doc, vs[k])
  }

  /**
   * What an entity says of its visit: an assembly where the node has children, else a part where it has a mesh, else a
   * module; the node's name, or one made of its index; its placement and mesh. The synthetic root is an assembly of the
   * scene's name, with neither.
   */
  predicate Tells(doc: Document, e: Entity, v: Visit)
    requires doc.HasScene()
  {
    && e.entityId == e.path == v.id && e.parentEntityId == v.parent
    && (v.node == -1 ==> e.kind == "assembly" && e.name == SceneName(doc) && e.transform.None? && e.meshIndex.None?)
    && (doc.InRange(v.node) ==>
          var node := doc.nodes[v.node];
          && e.transform == node.transform && e.meshIndex == node.mesh
          && e.name == (if node.name.Some? then node.name.value else "node-" + Decimal(v.node))
          && (node.children != [] ==> e.kind == "assembly")
          && (node.children == [] && node.mesh.Some? ==> e.kind == "part")
          && (node.children == [] && node.mesh.None? ==> e.kind == "module"))
  }

  lemma ParsedTells(doc: Document, entities: seq<Entity>, vs: seq<Visit>)
    requires doc.HasScene() && Parsed(doc, entities, vs)
    ensures forall k :: 0 <= k < |vs| ==> Tells(doc, entities[k], vs[k])
  {
    forall k | 0 <= k < |vs| ensures Tells(doc, entities[k], vs[k]) {
      assert entities[k] == EntityOf(doc, vs[k]);
    }
  }

  lemma ParsedPush(doc: Document, entities: seq<Entity>, vs: seq<Visit>, e: Entity, v: Visit)
    requires doc.HasScene() && Parsed(doc, entities, vs)
    requires (v.node == -1 || doc.InRange(v.node)) && e == EntityOf(doc, v)
    ensures Parsed(doc, entities + [e], vs + [v])
  {
  }

  class Parser {
    const doc: Document
    var entities: seq<Entity>
    const paths: Paths

    constructor (doc: Document)
      ensures this.doc == doc && entities == [] && fresh(paths) && paths.seen == {}
    {
      this.doc := doc;
      entities := [];
      paths := new Paths();
    }

    /** The synthetic root, when there are several top-level nodes. */
    method PushScene() returns (root: Option<string>)
      requires doc.HasScene() && entities == [] && paths.seen == {}
      modifies this, paths
      ensures root == RootParent(doc) && Parsed(doc, entities, Synthetic(doc)) && paths.seen == Ids(Synthetic(doc))
    {
      if |doc.Roots()| <= 1 { return None; }
      var path := paths.UniquePath(Slugify(SceneName(doc)));
      entities := [Entity(path, None, "assembly", SceneName(doc), path, None, None)];
      assert Synthetic(doc) == [Visit(path, None, -1)];
      root := Some(path);
    }

    /** The part of the walk before the children of `i`. */
    method PushEntity(i: int, parent: Option<string>, path: string, ghost done: seq<Visit>) returns (id: string)
      requires doc.HasScene() && doc.InRange(i) && Parsed(doc, entities, done) && paths.seen == Ids(done)
      modifies this, paths
      ensures id == Unique(Ids(done), BasePath(doc, i, path))
      ensures var vs := done + [Visit(id, parent, i)]; Parsed(doc, entities, vs) && paths.seen == Ids(vs)
    {
      var node := doc.nodes[i];
      var name := if node.name.Some? then node.name.value else "node-" + Decimal(i);
      var slug := Slugify(name);
      var base := if path != "" then path + "." + slug else slug;
      id := paths.UniquePath(base);
      var kind := if |node.children| > 0 then "assembly" else if node.mesh.Some? then "part" else "module";
      var entity := Entity(id, parent, kind, name, id, node.transform, node.mesh);
      ParsedPush(doc, entities, done, entity, Visit(id, parent, i));
      IdsPush(done, Visit(id, parent, i));
      entities := entities + [entity];
    }

    method WalkNode(i: int, parent: Option<string>, path: string, ghost rank: seq<nat>, ghost done: seq<Visit>)
      requires Ranks(doc.nodes, rank) && (doc.InRange(i) ==> rank[i] > 0) && doc.HasScene()
      requires Parsed(doc, entities, done) && paths.seen == Ids(done)
      modifies this, paths
      ensures var vs := Walk(doc, rank, i, parent, path, done); Parsed(doc, entities, vs) && paths.seen == Ids(vs)
      decreases if doc.InRange(i) then rank[i] + 1 else 0
    {
      if i < 0 || i >= |doc.nodes| { return; }
      var node := doc.nodes[i];
      var id := PushEntity(i, parent, path, done);
      ghost var vs := done + [Visit(id, parent, i)];
      for n := 0 to |node.children|
        invariant Parsed(doc, entities, vs) && paths.seen == Ids(vs)
        invariant WalkAll(doc, rank, rank[i], node.children[n..], Some(id), id, vs) == Walk(doc, rank, i, parent, path, done)
      {
        assert node.children[n..][1..] == node.children[n + 1..];
        ghost var before := vs;
        vs := Walk(doc, rank, node.children[n], Some(id), id, vs);
        WalkNode(node.children[n], Some(id), id, rank, before);
      }
    }
  }

  /** `parseGltf`: throws without a default scene or without top-level nodes. */
  method ParseGltf(doc: Document) returns (r: Result<seq<Entity>>)
    requires Ends(doc)
    ensures r.Throws? <==> doc.Roots() == []
    ensures r.Ok? ==> Parsed(doc, r.value, Visits(doc))
    ensures r.Ok? ==> forall k :: 0 <= k < |r.value| ==> Tells(doc, r.value[k], Visits(doc)[k])
  {
    if !doc.HasScene() || doc.DefaultScene().nodes == [] { return Throws; }
    var roots := doc.DefaultScene().nodes;
    var parser := new Parser(doc);
    ghost var rank := RankOf(doc);
    ghost var vs := Synthetic(doc);
    var root := parser.PushScene();
    for n := 0 to |roots|
      invariant fresh(parser) && fresh(parser.paths) && parser.doc == doc
      invariant Parsed(doc, parser.entities, vs) && parser.paths.seen == Ids(vs)
      invariant WalkAll(doc, rank, Above(rank), roots[n..], root, "", vs) == Visits(doc)
    {
      assert roots[n..][1..] == roots[n + 1..];
      ghost var before := vs;
      vs := Walk(doc, rank, roots[n], root, "", vs);
      parser.WalkNode(roots[n], root, "", rank, before);
    }
    ParsedTells(doc, parser.entities, Visits(doc));
    return Ok(parser.entities);
  }

  // ---------------------------------------------------------- the merge's index

  /** The entries the index has after the visits `vs`. */
  function Entries(vs: seq<Visit>): (m: OrderedMap<string, int>)
    ensures |m| == |vs| && forall k :: 0 <= k < |vs| ==> m[k] == (vs[k].id, vs[k].node)
  {
    seq(|vs|, k requires 0 <= k < |vs| => (vs[k].id, vs[k].node))
  }

  lemma EntriesPush(vs: seq<Visit>, v: Visit)
    requires v.id !in Ids(vs)
    ensures Put(Entries(vs), v.id, v.node) == Entries(vs + [v]) && Ids(vs + [v]) == Ids(vs) + {v.id}
  {
    forall k | 0 <= k < |vs| ensures KeysOf(Entries(vs))[k] != v.id {
      assert vs[k] in vs;
    }
    PutNew(Entries(vs), v.id, v.node);
    IdsPush(vs, v);
  }

  class Index {
    const doc: Document
    var nodeOf: OrderedMap<string, int>
    const paths: Paths

    constructor (doc: Document)
      ensures this.doc == doc && nodeOf == [] && fresh(paths) && paths.seen == {}
    {
      this.doc := doc;
      nodeOf := [];
      paths := new Paths();
    }

    /** The part of the walk before the children of `i`. */
    method PushEntry(i: int, ghost parent: Option<string>, path: string, ghost done: seq<Visit>) returns (id: string)
      requires doc.InRange(i) && nodeOf == Entries(done) && paths.seen == Ids(done)
      modifies this, paths
      ensures id == Unique(Ids(done), BasePath(doc, i, path))
      ensures var vs := done + [Visit(id, parent, i)]; nodeOf == Entries(vs) && paths.seen == Ids(vs)
    {
      var name := if doc.nodes[i].name.Some? then doc.nodes[i].name.value else "node-" + Decimal(i);
      var base := if path != "" then path + "." + Slugify(name) else Slugify(name);
      id := paths.UniquePath(base);
      EntriesPush(done, Visit(id, parent, i));
      nodeOf := Put(nodeOf, id, i);
    }

    method WalkNode(i: int, parent: Option<string>, path: string, ghost rank: seq<nat>, ghost done: seq<Visit>)
      requires Ranks(doc.nodes, rank) && (doc.InRange(i) ==> rank[i] > 0)
      requires nodeOf == Entries(done) && paths.seen == Ids(done)
      modifies this, paths
      ensures var vs := Walk(doc, rank, i, parent, path, done); nodeOf == Entries(vs) && paths.seen == Ids(vs)
      decreases if doc.InRange(i) then rank[i] + 1 else 0
    {
      if i < 0 || i >= |doc.nodes| { return; }
      var node := doc.nodes[i];
      var id := PushEntry(i, parent, path, done);
      ghost var vs := done + [Visit(id, parent, i)];
      for n := 0 to |node.children|
        invariant nodeOf == Entries(vs) && paths.seen == Ids(vs)
        invariant WalkAll(doc, rank, rank[i], node.children[n..], Some(id), id, vs) == Walk(doc, rank, i, parent, path, done)
      {
        assert node.children[n..][1..] == node.children[n + 1..];
        ghost var before := vs;
        vs := Walk(doc, rank, node.children[n], Some(id), id, vs);
        WalkNode(node.children[n], Some(id), id, rank, before);
      }
    }
  }

  /** `buildEntityNodeIndexMap`. */
  method BuildEntityNodeIndexMap(doc: Document) returns (m: OrderedMap<string, int>)
    requires Ends(doc)
    ensures m == Entries(Visits(doc))
  {
    if !doc.HasScene() { return []; }
    var roots := doc.DefaultScene().nodes;
    var index := new Index(doc);
    ghost var rank := RankOf(doc);
    ghost var vs := Synthetic(doc);
    var root := None;
    if |roots| > 1 {
      var path := index.paths.UniquePath(Slugify(SceneName(doc)));
      root := Some(path);
      index.nodeOf := Put(index.nodeOf, path, -1);
    }
    for n := 0 to |roots|
      invariant fresh(index) && fresh(index.paths) && index.doc == doc
      invariant index.nodeOf == Entries(vs) && index.paths.seen == Ids(vs)
      invariant WalkAll(doc, rank, Above(rank), roots[n..], root, "", vs) == Visits(doc)
    {
      assert roots[n..][1..] == roots[n + 1..];
      ghost var before := vs;
      vs := Walk(doc, rank, roots[n], root, "", vs);
      index.WalkNode(roots[n], root, "", rank, before);
    }
    m := index.nodeOf;
  }

  // --------------------------------------------------------- what both agree on

  /** The node of `j` lists the node `i`; the synthetic root lists the top-level nodes. */
  predicate Lists(doc: Document, j: int, i: int) {
    if doc.InRange(j) then i in doc.nodes[j].children else i in doc.Roots()
  }

  /** The visit `k` hangs below an earlier one whose node lists its node, or is a top. */
  ghost predicate Hangs(doc: Document, vs: seq<Visit>, k: int)
    requires 0 <= k < |vs|
  {
    if vs[k].parent == None then k == 0 && (vs[k].node == -1 || vs[k].node in doc.Roots())
    else doc.InRange(vs[k].node) && HangsBelow(doc, vs[..k], vs[k].parent.value, vs[k].node)
  }

  ghost predicate HangsBelow(doc: Document, earlier: seq<Visit>, parent: string, i: int) {
    exists j :: 0 <= j < |earlier| && earlier[j].id == parent && Lists(doc, earlier[j].node, i)
  }

  /** The visit `k` is of a node, or of the synthetic root, which comes first. */
  predicate IsNode(doc: Document, i: int, k: int) { doc.InRange(i) || (i == -1 && k == 0 && |doc.Roots()| > 1) }

  /** Ids are pairwise distinct, and every visit is a node or the synthetic root and hangs below an earlier one. */
  ghost predicate Sound(doc: Document, vs: seq<Visit>) {
    && (forall j, k :: 0 <= j < k < |vs| ==> vs[j].id != vs[k].id)
    && (forall k :: 0 <= k < |vs| ==> IsNode(doc, vs[k].node, k) && Hangs(doc, vs, k))
  }

  ghost predicate HasChild(vs: seq<Visit>, parent: string, i: int) {
    exists k :: 0 <= k < |vs| && vs[k].parent == Some(parent) && vs[k].node == i
  }

  /** What the visit `k` lists is visited below it. */
  ghost predicate Closed(doc: Document, vs: seq<Visit>, k: int)
    requires 0 <= k < |vs|
  {
    forall i :: Lists(doc, vs[k].node, i) && doc.InRange(i) ==> HasChild(vs, vs[k].id, i)
  }

  ghost predicate ClosedFrom(doc: Document, vs: seq<Visit>, from: int) {
    forall k :: 0 <= from <= k < |vs| ==> Closed(doc, vs, k)
  }

  /** The parent to walk under is an earlier visit that lists `i`, or `i` comes first of all. */
  ghost predicate MayHang(doc: Document, done: seq<Visit>, parent: Option<string>, i: int) {
    if parent == None then done == [] && i in doc.Roots() else HangsBelow(doc, done, parent.value, i)
  }

  lemma HasChildGrows(vs: seq<Visit>, vs': seq<Visit>, parent: string, i: int)
    requires vs <= vs' && HasChild(vs, parent, i)
    ensures HasChild(vs', parent, i)
  {
    var k :| 0 <= k < |vs| && vs[k].parent == Some(parent) && vs[k].node == i;
    assert vs'[k] == vs[k];
  }

  lemma HangsBelowGrows(doc: Document, vs: seq<Visit>, vs': seq<Visit>, parent: string, i: int)
    requires vs <= vs' && HangsBelow(doc, vs, parent, i)
    ensures HangsBelow(doc, vs', parent, i)
  {
    var j :| 0 <= j < |vs| && vs[j].id == parent && Lists(doc, vs[j].node, i);
    assert vs'[j] == vs[j];
  }

  lemma ClosedGrows(doc: Document, vs: seq<Visit>, vs': seq<Visit>, from: nat)
    requires vs <= vs' && ClosedFrom(doc, vs, from) && ClosedFrom(doc, vs', |vs|)
    ensures ClosedFrom(doc, vs', from)
  {
    forall k, i | from <= k < |vs'| && Lists(doc, vs'[k].node, i) && doc.InRange(i) ensures HasChild(vs', vs'[k].id, i) {
      if k < |vs| {
        assert Closed(doc, vs, k) && vs[k] == vs'[k];
        HasChildGrows(vs, vs', vs[k].id, i);
      } else {
        assert Closed(doc, vs', k);
      }
    }
  }

  lemma SoundPush(doc: Document, done: seq<Visit>, v: Visit)
    requires Sound(doc, done) && doc.InRange(v.node) && v.id !in Ids(done) && MayHang(doc, done, v.parent, v.node)
    ensures Sound(doc, done + [v])
  {
    var vs := done + [v];
    forall j | 0 <= j < |done| ensures vs[j].id != v.id { assert done[j] in done; }
    forall k | 0 <= k < |vs| ensures Hangs(doc, vs, k) {
      if k < |done| {
        assert Hangs(doc, done, k) && vs[..k] == done[..k];
      } else {
        assert vs[..k] == done;
      }
    }
  }

  lemma {:induction false} WalkSound(doc: Document, rank: seq<nat>, i: int, parent: Option<string>, path: string, done: seq<Visit>)
    requires Ranks(doc.nodes, rank) && (doc.InRange(i) ==> rank[i] > 0) && Sound(doc, done) && MayHang(doc, done, parent, i)
    ensures var vs := Walk(doc, rank, i, parent, path, done);
            Sound(doc, vs) && ClosedFrom(doc, vs, |done|)
            && (parent.Some? && doc.InRange(i) ==> HasChild(vs, parent.value, i))
    decreases if doc.InRange(i) then rank[i] + 1 else 0, 1, 0
  {
    if doc.InRange(i) {
      var v := Visit(Unique(Ids(done), BasePath(doc, i, path)), parent, i);
      SoundPush(doc, done, v);
      var children := doc.nodes[i].children;
      assert (done + [v])[|done|] == v;
      assert forall c :: c in children ==> HangsBelow(doc, done + [v], v.id, c);
      WalkAllSound(doc, rank, rank[i], children, v.id, v.id, done + [v]);
      var vs := Walk(doc, rank, i, parent, path, done);
      assert vs == WalkAll(doc, rank, rank[i], children, Some(v.id), v.id, done + [v]);
      assert vs[|done|] == v;
      assert Closed(doc, vs, |done|);
    }
  }

  lemma {:induction false} WalkAllSound(doc: Document, rank: seq<nat>, top: nat, list: seq<int>, parent: string, path: string, done: seq<Visit>)
    requires Ranks(doc.nodes, rank) && (forall c :: c in list && doc.InRange(c) ==> 0 < rank[c] < top)
    requires Sound(doc, done) && forall c :: c in list ==> HangsBelow(doc, done, parent, c)
    ensures var vs := WalkAll(doc, rank, top, list, Some(parent), path, done);
            Sound(doc, vs) && ClosedFrom(doc, vs, |done|)
            && forall c :: c in list && doc.InRange(c) ==> HasChild(vs, parent, c)
    decreases top + 1, 0, |list|
  {
    if list != [] {
      WalkSound(doc, rank, list[0], Some(parent), path, done);
      var next := Walk(doc, rank, list[0], Some(parent), path, done);
      forall c | c in list[1..] ensures HangsBelow(doc, next, parent, c) { HangsBelowGrows(doc, done, next, parent, c); }
      WalkAllSound(doc, rank, top, list[1..], parent, path, next);
      var vs := WalkAll(doc, rank, top, list, Some(parent), path, done);
      ClosedGrows(doc, next, vs, |done|);
      if doc.InRange(list[0]) { HasChildGrows(next, vs, parent, list[0]); }
    }
  }

  lemma OneRootSound(doc: Document, rank: seq<nat>, root: int)
    requires RanksWalk(doc, rank) && doc.Roots() == [root]
    ensures var vs := WalkAll(doc, rank, Above(rank), [root], None, "", []); Sound(doc, vs) && ClosedFrom(doc, vs, 0)
  {
    WalkSound(doc, rank, root, None, "", []);
    var vs := Walk(doc, rank, root, None, "", []);
    assert [root][1..] == [] && WalkAll(doc, rank, Above(rank), [], None, "", vs) == vs;
  }

  lemma ManyRootsSound(doc: Document, rank: seq<nat>)
    requires RanksWalk(doc, rank) && doc.HasScene() && |doc.Roots()| > 1
    ensures var vs := WalkAll(doc, rank, Above(rank), doc.Roots(), RootParent(doc), "", Synthetic(doc));
            Sound(doc, vs) && ClosedFrom(doc, vs, 0) && vs != [] && vs[0].node == -1
  {
    var done := Synthetic(doc);
    var root := done[0].id;
    forall c | c in doc.Roots() ensures HangsBelow(doc, done, root, c) { assert Lists(doc, done[0].node, c); }
    WalkAllSound(doc, rank, Above(rank), doc.Roots(), root, "", done);
    var vs := WalkAll(doc, rank, Above(rank), doc.Roots(), RootParent(doc), "", done);
    assert vs[0] == done[0];
    assert Closed(doc, vs, 0);
  }

  /**
   * On every document whose walk ends: ids are pairwise distinct, each parent comes before its children and lists them,
   * and whatever a visited node lists is visited below it.
   */
  lemma VisitsSound(doc: Document)
    requires Ends(doc)
    ensures Sound(doc, Visits(doc)) && ClosedFrom(doc, Visits(doc), 0)
    ensures |doc.Roots()| > 1 ==> Visits(doc) != [] && Visits(doc)[0].node == -1
  {
    var rank := RankOf(doc);
    if |doc.Roots()| > 1 {
      ManyRootsSound(doc, rank);
    } else if doc.Roots() != [] {
      assert doc.Roots() == [doc.Roots()[0]];
      OneRootSound(doc, rank, doc.Roots()[0]);
    }
  }

  /** Every top-level node is visited. */
  lemma RootVisited(doc: Document, c: int) returns (k: nat)
    requires Ends(doc) && c in doc.Roots() && doc.InRange(c)
    ensures k < |Visits(doc)| && Visits(doc)[k].node == c
  {
    VisitsSound(doc);
    var vs := Visits(doc);
    if |doc.Roots()| > 1 {
      assert Closed(doc, vs, 0) && Lists(doc, vs[0].node, c);
      k :| 0 <= k < |vs| && vs[k].parent == Some(vs[0].id) && vs[k].node == c;
    } else {
      assert doc.Roots() == [c];
      var first := Visit(Unique({}, BasePath(doc, c, "")), None, c);
      assert Ids([]) == {} && [first] <= Walk(doc, RankOf(doc), c, None, "", []) <= vs;
      k := 0;
    }
  }

  /** Whatever a visited node lists is visited. */
  lemma ListedVisited(doc: Document, j: nat, c: int) returns (k: nat)
    requires Ends(doc) && j < |Visits(doc)| && Lists(doc, Visits(doc)[j].node, c) && doc.InRange(c)
    ensures k < |Visits(doc)| && Visits(doc)[k].node == c
  {
    VisitsSound(doc);
    var vs := Visits(doc);
    assert Closed(doc, vs, j);
    k :| 0 <= k < |vs| && vs[k].parent == Some(vs[j].id) && vs[k].node == c;
  }

  /** Visited nodes are those that something ranks along the way from the top. */
  lemma {:induction false} VisitRanked(doc: Document, rank: seq<nat>, k: nat)
    requires Ends(doc) && RanksWalk(doc, rank) && k < |Visits(doc)|
    ensures doc.InRange(Visits(doc)[k].node) ==> rank[Visits(doc)[k].node] > 0
    decreases k
  {
    VisitsSound(doc);
    var vs := Visits(doc);
    assert Hangs(doc, vs, k);
    if vs[k].parent.Some? {
      var j :| 0 <= j < k && vs[..k][j].id == vs[k].parent.value && Lists(doc, vs[..k][j].node, vs[k].node);
      VisitRanked(doc, rank, j);
    }
  }

  lemma UniqueNonEmpty(seen: set<string>, doc: Document, i: int, path: string)
    requires doc.InRange(i)
    ensures Unique(seen, BasePath(doc, i, path)) != ""
  {
    SlugShape(NameOf(doc, i));
    assert BasePath(doc, i, path) != "";
  }

  predicate NonEmptyIds(vs: seq<Visit>) { forall k :: 0 <= k < |vs| ==> vs[k].id != "" }

  lemma {:induction false} WalkNonEmpty(doc: Document, rank: seq<nat>, i: int, parent: Option<string>, path: string, done: seq<Visit>)
    requires Ranks(doc.nodes, rank) && (doc.InRange(i) ==> rank[i] > 0) && NonEmptyIds(done)
    ensures NonEmptyIds(Walk(doc, rank, i, parent, path, done))
    decreases if doc.InRange(i) then rank[i] + 1 else 0, 1, 0
  {
    if doc.InRange(i) {
      UniqueNonEmpty(Ids(done), doc, i, path);
      var id := Unique(Ids(done), BasePath(doc, i, path));
      WalkAllNonEmpty(doc, rank, rank[i], doc.nodes[i].children, Some(id), id, done + [Visit(id, parent, i)]);
    }
  }

  lemma {:induction false} WalkAllNonEmpty(doc: Document, rank: seq<nat>, top: nat, list: seq<int>, parent: Option<string>, path: string,
                                           done: seq<Visit>)
    requires Ranks(doc.nodes, rank) && (forall c :: c in list && doc.InRange(c) ==> 0 < rank[c] < top) && NonEmptyIds(done)
    ensures NonEmptyIds(WalkAll(doc, rank, top, list, parent, path, done))
    decreases top + 1, 0, |list|
  {
    if list != [] {
      WalkNonEmpty(doc, rank, list[0], parent, path, done);
      WalkAllNonEmpty(doc, rank, top, list[1..], parent, path, Walk(doc, rank, list[0], parent, path, done));
    }
  }

  lemma VisitsNonEmpty(doc: Document)
    requires Ends(doc)
    ensures NonEmptyIds(Visits(doc))
  {
    if doc.HasScene() {
      SlugShape(SceneName(doc));
      var rank := RankOf(doc);
      WalkAllNonEmpty(doc, rank, Above(rank), doc.Roots(), RootParent(doc), "", Synthetic(doc));
    }
  }

  /**
   * The parser and the merge's index name the same nodes: the same ids in the same order, and the node an id
   * leads to is the one its entity was made from.
   */
  lemma IdsAgree(doc: Document, entities: seq<Entity>, k: nat)
    requires Ends(doc) && doc.HasScene() && Parsed(doc, entities, Visits(doc)) && k < |entities|
    ensures KeysOf(Entries(Visits(doc)))[k] == entities[k].entityId
    ensures var node := Get(Entries(Visits(doc)), entities[k].entityId);
            node.Some? && (node.value == -1 || doc.InRange(node.value))
            && entities[k] == EntityOf(doc, Visit(entities[k].entityId, entities[k].parentEntityId, node.value))
            && (node.value == -1 <==> k == 0 && |doc.Roots()| > 1)
  {
    VisitsSound(doc);
    GetAt(Entries(Visits(doc)), k);
  }
}
