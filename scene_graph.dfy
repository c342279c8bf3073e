/**
 * The scene graph as the opacity propagator sees it, and the propagator
 * itself (`setOpacity` in src/animation/ScrollAnimations.js).
 *
 * A node carries no material, one material, or an array of materials, and an
 * ordered list of children. Every material may carry an authored baseline
 * opacity (`userData.baseOpacity`); the propagator rewrites the rendered
 * `opacity` and the `transparent` flag of every material strictly below the
 * node it is given, and never writes the baseline.
 */
module SceneGraph {
  import opened Wrappers

  datatype Material = Material(baseOpacity: Option<real>, transparent: bool, opacity: real)

  /** `child.material`: absent, a single material, or an array of materials. */
  datatype Slot = NoMaterial | Single(m: Material) | Many(ms: seq<Material>)

  /** A scene-graph object: its render-visibility flag, its material slot and its children. */
  datatype Node = Node(visible: bool, material: Slot, children: seq<Node>)

  /** `userData?.baseOpacity ?? 1`: a missing baseline counts as fully opaque. */
  function Base(m: Material): real {
    match m.baseOpacity
    case Some(b) => b
    case None => 1.0
  }

  // ---------------------------------------------------------------------------
  // Specification of the rewrite

  /** The state one material is left in after a write with factor `f`. */
  function FadeMaterial(m: Material, f: real): (r: Material)
    ensures r.baseOpacity == m.baseOpacity && Base(r) == Base(m)
    ensures r.transparent && r.opacity == Base(m) * f
  {
    m.(transparent := true, opacity := Base(m) * f)
  }

  function FadeSlot(s: Slot, f: real): Slot {
    match s
    case NoMaterial => NoMaterial
    case Single(m) => Single(FadeMaterial(m, f))
    case Many(ms) => Many(seq(|ms|, j requires 0 <= j < |ms| => FadeMaterial(ms[j], f)))
  }

  /** A node below the root: its own materials and all of its descendants' are rewritten. */
  function SubtreeFaded(n: Node, f: real): Node
    decreases n
  {
    Node(n.visible, FadeSlot(n.material, f),
         seq(|n.children|, i requires 0 <= i < |n.children| => SubtreeFaded(n.children[i], f)))
  }

  /** What `setOpacity(root, f)` leaves behind: the root's own material is not touched. */
  function Faded(root: Node, f: real): Node {
    root.(children := seq(|root.children|, i requires 0 <= i < |root.children| => SubtreeFaded(root.children[i], f)))
  }

  /** Applies `setOpacity` once per factor, in order (the frames of a ramp). */
  function FadedAll(root: Node, fs: seq<real>): Node
    decreases |fs|
  {
    if fs == [] then root else FadedAll(Faded(root, fs[0]), fs[1..])
  }

  // ---------------------------------------------------------------------------
  // An independent description of the result: the tree shape and the
  // baselines, with the rendered state erased, and the "faded" predicate.

  function StripMaterial(m: Material): Material {
    Material(m.baseOpacity, false, 0.0)
  }

  function StripSlot(s: Slot): Slot {
    match s
    case NoMaterial => NoMaterial
    case Single(m) => Single(StripMaterial(m))
    case Many(ms) => Many(seq(|ms|, j requires 0 <= j < |ms| => StripMaterial(ms[j])))
  }

  /** The tree structure, the visibility flags and every baseline opacity, nothing else. */
  function Strip(n: Node): Node
    decreases n
  {
    Node(n.visible, StripSlot(n.material),
         seq(|n.children|, i requires 0 <= i < |n.children| => Strip(n.children[i])))
  }

  predicate MaterialFaded(m: Material, f: real) {
    m.transparent && m.opacity == Base(m) * f
  }

  predicate SlotFaded(s: Slot, f: real) {
    match s
    case NoMaterial => true
    case Single(m) => MaterialFaded(m, f)
    case Many(ms) => forall j :: 0 <= j < |ms| ==> MaterialFaded(ms[j], f)
  }

  /** Every material of `n` and of all its descendants is transparent at baseline times `f`. */
  predicate AllFadedAt(n: Node, f: real)
    decreases n
  {
    SlotFaded(n.material, f) &&
    forall i :: 0 <= i < |n.children| ==> AllFadedAt(n.children[i], f)
  }

  /** Every descendant of `root` (not `root` itself) is faded to `f`. */
  predicate BelowFadedAt(root: Node, f: real) {
    forall i :: 0 <= i < |root.children| ==> AllFadedAt(root.children[i], f)
  }

  // ---------------------------------------------------------------------------
  // Properties of the rewrite

  lemma SlotFadedFacts(s: Slot, f: real)
    ensures StripSlot(FadeSlot(s, f)) == StripSlot(s)
    ensures SlotFaded(FadeSlot(s, f), f)
  {
    match s
    case NoMaterial =>
    case Single(m) =>
    case Many(ms) =>
      assert StripSlot(FadeSlot(s, f)).ms == StripSlot(s).ms;
  }

  lemma {:induction false} SubtreeFadedFacts(n: Node, f: real)
    ensures Strip(SubtreeFaded(n, f)) == Strip(n)
    ensures AllFadedAt(SubtreeFaded(n, f), f)
    decreases n
  {
    SlotFadedFacts(n.material, f);
    var t := SubtreeFaded(n, f);
    forall i | 0 <= i < |n.children|
      ensures Strip(t.children[i]) == Strip(n.children[i])
      ensures AllFadedAt(t.children[i], f)
    {
      SubtreeFadedFacts(n.children[i], f);
    }
    assert Strip(t).children == Strip(n).children;
  }

  /**
   * `setOpacity(root, f)` keeps the tree shape and every baseline, leaves the
   * root's own material alone, and leaves every descendant material
   * transparent at `baseOpacity * f`.
   */
  lemma FadedFacts(root: Node, f: real)
    ensures Strip(Faded(root, f)) == Strip(root)
    ensures Faded(root, f).material == root.material
    ensures BelowFadedAt(Faded(root, f), f)
  {
    var t := Faded(root, f);
    forall i | 0 <= i < |root.children|
      ensures Strip(t.children[i]) == Strip(root.children[i])
      ensures AllFadedAt(t.children[i], f)
    {
      SubtreeFadedFacts(root.children[i], f);
    }
    assert Strip(t).children == Strip(root).children;
  }

  lemma SlotUnique(s: Slot, t: Slot, f: real)
    requires StripSlot(t) == StripSlot(s) && SlotFaded(t, f)
    ensures t == FadeSlot(s, f)
  {
    match s
    case NoMaterial =>
    case Single(m) =>
    case Many(ms) =>
      assert |t.ms| == |StripSlot(t).ms| == |ms|;
      forall j | 0 <= j < |ms| ensures t.ms[j] == FadeSlot(s, f).ms[j] {
        assert StripMaterial(t.ms[j]) == StripSlot(t).ms[j] == StripMaterial(ms[j]);
      }
  }

  lemma {:induction false} SubtreeUnique(n: Node, t: Node, f: real)
    requires Strip(t) == Strip(n) && AllFadedAt(t, f)
    ensures t == SubtreeFaded(n, f)
    decreases n
  {
    SlotUnique(n.material, t.material, f);
    assert |t.children| == |Strip(t).children| == |n.children|;
    forall i | 0 <= i < |n.children| ensures t.children[i] == SubtreeFaded(n.children[i], f) {
      assert Strip(t.children[i]) == Strip(t).children[i] == Strip(n.children[i]);
      SubtreeUnique(n.children[i], t.children[i], f);
    }
  }

  /**
   * The converse of `FadedFacts`: a tree with the same shape and baselines as
   * `root`, the root's material as it was, and every descendant faded to `f`
   * is exactly `Faded(root, f)`. So the rewrite depends on nothing but the
   * baselines and `f`.
   */
  lemma FadedUnique(root: Node, t: Node, f: real)
    requires Strip(t) == Strip(root) && t.material == root.material && BelowFadedAt(t, f)
    ensures t == Faded(root, f)
  {
    assert |t.children| == |Strip(t).children| == |root.children|;
    forall i | 0 <= i < |root.children| ensures t.children[i] == SubtreeFaded(root.children[i], f) {
      assert Strip(t.children[i]) == Strip(t).children[i] == Strip(root.children[i]);
      SubtreeUnique(root.children[i], t.children[i], f);
    }
  }

  /** The last call wins: earlier factors leave no trace (no cumulative drift). */
  lemma FadedLastWins(root: Node, f1: real, f2: real)
    ensures Faded(Faded(root, f1), f2) == Faded(root, f2)
  {
    var once := Faded(root, f1);
    FadedFacts(root, f1);
    FadedFacts(once, f2);
    FadedUnique(root, Faded(once, f2), f2);
  }

  /** For a fixed factor the rewrite is idempotent. */
  lemma FadedIdempotent(root: Node, f: real)
    ensures Faded(Faded(root, f), f) == Faded(root, f)
  {
    FadedLastWins(root, f, f);
  }

  /**
   * However many calls came before, `setOpacity(root, 1)` restores every
   * descendant material to exactly its baseline opacity.
   */
  lemma {:induction false} RestoreBaseline(root: Node, fs: seq<real>)
    ensures Faded(FadedAll(root, fs), 1.0) == Faded(root, 1.0)
    ensures BelowFadedAt(Faded(FadedAll(root, fs), 1.0), 1.0)
    decreases |fs|
  {
    if fs != [] {
      RestoreBaseline(Faded(root, fs[0]), fs[1..]);
      FadedLastWins(root, fs[0], 1.0);
    }
    FadedFacts(root, 1.0);
  }

  // ---------------------------------------------------------------------------
  // The propagator as the source runs it: a loop over the children, an inner
  // loop over each child's materials, and a recursive call for a child that
  // has children of its own.

  /** The inner loop: `mats[j].transparent = true; mats[j].opacity = base * f`. */
  method SetSlotOpacity(slot: Slot, f: real) returns (r: Slot)
    ensures r == FadeSlot(slot, f)
  {
    var mats := match slot
      case NoMaterial => []
      case Single(m) => [m]
      case Many(ms) => ms;
    ghost var orig := mats;
    var j := 0;
    while j < |mats|
      invariant 0 <= j <= |mats| == |orig|
      invariant forall k :: 0 <= k < j ==> mats[k] == FadeMaterial(orig[k], f)
      invariant forall k :: j <= k < |mats| ==> mats[k] == orig[k]
    {
      var m := mats[j];
      m := m.(transparent := true);
      m := m.(opacity := Base(m) * f);
      mats := mats[j := m];
      j := j + 1;
    }
    match slot
    case NoMaterial => r := NoMaterial;
    case Single(_) => r := Single(mats[0]);
    case Many(_) => r := Many(mats);
  }

  method SetOpacity(group: Node, f: real) returns (r: Node)
    ensures r == Faded(group, f)
    decreases group
  {
    var children := group.children;
    var out: seq<Node> := [];
    var i := 0;
    while i < |children|
      invariant 0 <= i <= |children|
      invariant |out| == i
      invariant forall k :: 0 <= k < i ==> out[k] == SubtreeFaded(children[k], f)
    {
      var child := children[i];
      var material := child.material;
      if material != NoMaterial {
        material := SetSlotOpacity(material, f);
      }
      var below := child.children;
      if |child.children| > 0 {
        var sub := SetOpacity(child, f);
        below := sub.children;
      }
      out := out + [Node(child.visible, material, below)];
      i := i + 1;
    }
    r := group.(children := out);
  }
}
