/** The parts of a glTF document that entity identity and merging read, and the names made from it. */
module Gltf {
  import opened Wrappers
  import opened Strings

  /** `transform` stands for the three placement fields, which are only copied here. */
  datatype Node = Node(name: Option<string>, children: seq<int>, mesh: Option<int>, transform: Option<nat>)

  datatype Scene = Scene(name: Option<string>, nodes: seq<int>)

  datatype Document = Document(nodes: seq<Node>, scenes: seq<Scene>, scene: Option<int>) {
    /** `nodes[i]` is there: other indices read as undefined. */
    predicate InRange(i: int) { 0 <= i < |nodes| }

    function SceneIndex(): int { if scene.Some? then scene.value else 0 }

    predicate HasScene() { 0 <= SceneIndex() < |scenes| }

    function DefaultScene(): Scene requires HasScene() { scenes[SceneIndex()] }

    function Roots(): seq<int> { if HasScene() then DefaultScene().nodes else [] }
  }

  /** `rank` goes down along every edge of the node graph that leaves a ranked node; 0 marks the nodes left out. */
  ghost predicate Ranks(nodes: seq<Node>, rank: seq<nat>) {
    && |rank| == |nodes|
    && forall i, c :: 0 <= i < |nodes| && rank[i] > 0 && c in nodes[i].children && 0 <= c < |nodes| ==> 0 < rank[c] < rank[i]
  }

  /** No cycle anywhere in the node graph. */
  ghost predicate Acyclic(nodes: seq<Node>) { exists rank :: RanksAll(nodes, rank) }

  ghost predicate RanksAll(nodes: seq<Node>, rank: seq<nat>) {
    Ranks(nodes, rank) && forall i :: 0 <= i < |rank| ==> rank[i] > 0
  }

  /** No cycle can be reached from the top-level nodes: the recursive walks of the document end. */
  ghost predicate Ends(doc: Document) { exists rank :: RanksWalk(doc, rank) }

  ghost predicate RanksWalk(doc: Document, rank: seq<nat>) {
    Ranks(doc.nodes, rank) && forall c :: c in doc.Roots() && doc.InRange(c) ==> rank[c] > 0
  }

  ghost function RankOf(doc: Document): (rank: seq<nat>)
    requires Ends(doc)
    ensures RanksWalk(doc, rank)
  {
    var rank :| RanksWalk(doc, rank);
    rank
  }

  /** The walk from `i` recurses at most `depth` deep. */
  predicate Shallow(nodes: seq<Node>, i: int, depth: nat)
    decreases depth
  {
    0 <= i < |nodes| ==> depth > 0 && forall c :: c in nodes[i].children ==> Shallow(nodes, c, depth - 1)
  }

  predicate RootsShallow(doc: Document, depth: nat) { forall c :: c in doc.Roots() ==> Shallow(doc.nodes, c, depth) }

  /** The depth of the walk from `i` where it is at most `depth`, else 0. */
  function DepthWithin(nodes: seq<Node>, i: int, depth: nat): (r: nat)
    ensures r <= depth && (r > 0 ==> Shallow(nodes, i, r))
    ensures forall d :: 0 < d <= depth && Shallow(nodes, i, d) ==> 0 < r <= d
  {
    if depth == 0 then 0
    else
      var r := DepthWithin(nodes, i, depth - 1);
      if r > 0 then r else if Shallow(nodes, i, depth) then depth else 0
  }

  lemma {:induction false} RankedIsShallow(nodes: seq<Node>, rank: seq<nat>, i: int, depth: nat)
    requires Ranks(nodes, rank) && (0 <= i < |nodes| ==> 0 < rank[i] <= depth)
    ensures Shallow(nodes, i, depth)
    decreases depth
  {
    if 0 <= i < |nodes| {
      forall c | c in nodes[i].children ensures Shallow(nodes, c, depth - 1) { RankedIsShallow(nodes, rank, c, depth - 1); }
    }
  }

  /** The walks of a document end exactly when some depth bounds their recursion. */
  lemma EndsIsBoundedDepth(doc: Document)
    ensures Ends(doc) <==> exists depth :: RootsShallow(doc, depth)
  {
    if Ends(doc) {
      var rank := RankOf(doc);
      forall c | c in doc.Roots() ensures Shallow(doc.nodes, c, Above(rank)) { RankedIsShallow(doc.nodes, rank, c, Above(rank)); }
      assert RootsShallow(doc, Above(rank));
    }
    if depth :| RootsShallow(doc, depth) {
      var rank := seq(|doc.nodes|, i => DepthWithin(doc.nodes, i, depth));
      forall i, c | 0 <= i < |doc.nodes| && rank[i] > 0 && c in doc.nodes[i].children && 0 <= c < |doc.nodes|
        ensures 0 < rank[c] < rank[i]
      {
        assert Shallow(doc.nodes, c, rank[i] - 1);
      }
      forall c | c in doc.Roots() && doc.InRange(c) ensures rank[c] > 0 { assert Shallow(doc.nodes, c, depth); }
      assert RanksWalk(doc, rank);
    }
  }

  /** A bound above every rank. */
  ghost function Above(rank: seq<nat>): (top: nat)
    ensures forall i :: 0 <= i < |rank| ==> rank[i] < top
  {
    if rank == [] then 0
    else
      var rest := Above(rank[..|rank| - 1]);
      if rank[|rank| - 1] < rest then rest else rank[|rank| - 1] + 1
  }

  // --------------------------------------------------------------------- slugs

  predicate IsSlugChar(c: char) { 'a' <= c <= 'z' || IsDigit(c) }

  /** `toLowerCase`, as far as it reaches `a`-`z`: besides A-Z, only the Kelvin sign and the dotted capital I do. */
  function Lower(c: char): string {
    if 'A' <= c <= 'Z' then [c - 'A' + 'a']
    else if c == '\U{212A}' then "k"
    else if c == '\U{0130}' then ['i', '\U{0307}']
    else [c]
  }

  function LowerAll(s: string): string { if s == [] then [] else Lower(s[0]) + LowerAll(s[1..]) }

  /** Every maximal run of other characters becomes one dash; `inRun`: the run before `s` has its dash already. */
  function Dashes(s: string, inRun: bool): string {
    if s == [] then []
    else if IsSlugChar(s[0]) then [s[0]] + Dashes(s[1..], false)
    else (if inRun then [] else ['-']) + Dashes(s[1..], true)
  }

  function Slugify(name: string): string {
    var dashed := Dashes(LowerAll(name), false);
    var left := if dashed != [] && dashed[0] == '-' then dashed[1..] else dashed;
    var right := if left != [] && left[|left| - 1] == '-' then left[..|left| - 1] else left;
    if right == [] then "node" else right
  }

  /** Words of slug characters with single dashes between them. */
  predicate Dashed(s: string) {
    && (forall k :: 0 <= k < |s| ==> IsSlugChar(s[k]) || s[k] == '-')
    && (forall k :: 0 <= k < |s| - 1 ==> IsSlugChar(s[k]) || IsSlugChar(s[k + 1]))
  }

  predicate IsSlug(s: string) { s != [] && Dashed(s) && IsSlugChar(s[0]) && IsSlugChar(s[|s| - 1]) }

  lemma {:induction false} DashesShape(s: string, inRun: bool)
    ensures Dashed(Dashes(s, inRun))
    ensures inRun && Dashes(s, inRun) != [] ==> IsSlugChar(Dashes(s, inRun)[0])
  {
    if s != [] {
      DashesShape(s[1..], !IsSlugChar(s[0]));
    }
  }

  /** A slug is never empty, holds no dot, and neither starts nor ends with a dash. */
  lemma SlugShape(name: string)
    ensures IsSlug(Slugify(name)) && '.' !in Slugify(name)
  {
    DashesShape(LowerAll(name), false);
    NodeIsSlug();
  }

  lemma NodeIsSlug()
    ensures IsSlug("node")
  {
  }
}
