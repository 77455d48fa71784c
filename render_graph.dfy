/**
 * The rebuild pass `refreshElements` runs: the drawing surface is emptied and
 * one object is created per element that can be drawn, in list order. The
 * surface is modelled by the ids its objects are named with.
 */
module RenderGraph {
  import opened Wrappers
  import opened Dom
  import opened Scene

  /** The drawing surface (a fabric canvas), updated in place. */
  class Surface {
    var objects: seq<ElementId>

    constructor ()
      ensures objects == []
    {
      objects := [];
    }
  }

  /** How a rebuild ends: normally, or by the `Not implemented` exception. */
  datatype Outcome = Completed | Thrown(message: string)

  /** The four element types the rebuild knows; any other makes it throw. */
  predicate Supported(e: Element) {
    !e.kind.OtherKind?
  }

  /** Text always gets an object; image and video only when their document node exists; audio never. */
  predicate GetsObject(e: Element, nodes: map<DomId, Node>)
    ensures GetsObject(e, nodes) ==> Supported(e) && !e.kind.AudioKind?
  {
    || e.kind.TextKind?
    || ((e.kind.ImageKind? || e.kind.VideoKind?) && e.kind.elementId in nodes)
  }

  /** The element after its turn in the rebuild: a freshly created object is visible. */
  function Bind(e: Element, nodes: map<DomId, Node>): (r: Element) {
    if GetsObject(e, nodes) then e.(fabricObject := Some(RenderObject(true))) else e
  }

  /** The elements after the rebuild has handled the first `k` of them. */
  function BindUpTo(es: seq<Element>, k: int, nodes: map<DomId, Node>): (r: seq<Element>) {
    seq(|es|, i requires 0 <= i < |es| => if i < k then Bind(es[i], nodes) else es[i])
  }

  /** The ids of the objects the rebuild adds for `es`, in order. */
  function SurfaceFor(es: seq<Element>, nodes: map<DomId, Node>): (r: seq<ElementId>)
    decreases |es|
  {
    if es == [] then []
    else SurfaceFor(es[..|es| - 1], nodes)
         + (if GetsObject(es[|es| - 1], nodes) then [es[|es| - 1].id] else [])
  }

  /** The index of the first element of an unsupported type, or `|es|` when there is none. */
  function FirstUnsupported(es: seq<Element>): (k: nat)
    ensures k <= |es|
    ensures forall i :: 0 <= i < k ==> Supported(es[i])
    ensures k < |es| ==> !Supported(es[k])
    decreases |es|
  {
    if es == [] then 0
    else if !Supported(es[0]) then 0
    else 1 + FirstUnsupported(es[1..])
  }

  /** An id is on the rebuilt surface exactly when some element with that id gets an object. */
  lemma {:induction false} SurfaceForMembership(es: seq<Element>, nodes: map<DomId, Node>, id: ElementId)
    ensures id in SurfaceFor(es, nodes) <==> exists i :: 0 <= i < |es| && es[i].id == id && GetsObject(es[i], nodes)
    decreases |es|
  {
    if es != [] {
      var init := es[..|es| - 1];
      SurfaceForMembership(init, nodes, id);
      if id in SurfaceFor(es, nodes) {
        if id in SurfaceFor(init, nodes) {
          var i :| 0 <= i < |init| && init[i].id == id && GetsObject(init[i], nodes);
          assert es[i] == init[i];
        }
      }
      if exists i :: 0 <= i < |es| && es[i].id == id && GetsObject(es[i], nodes) {
        var i :| 0 <= i < |es| && es[i].id == id && GetsObject(es[i], nodes);
        if i < |es| - 1 {
          assert init[i] == es[i];
        }
      }
    }
  }

  predicate NoDuplicates(s: seq<ElementId>) {
    forall i, j :: 0 <= i < j < |s| ==> s[i] != s[j]
  }

  /** With unique element ids the surface holds one object per id. */
  lemma {:induction false} SurfaceForNoDuplicates(es: seq<Element>, nodes: map<DomId, Node>)
    requires UniqueIds(es)
    ensures NoDuplicates(SurfaceFor(es, nodes))
    decreases |es|
  {
    if es != [] {
      var init := es[..|es| - 1];
      var last := es[|es| - 1];
      SurfaceForNoDuplicates(init, nodes);
      if GetsObject(last, nodes) {
        SurfaceForMembership(init, nodes, last.id);
        forall i | 0 <= i < |init| ensures init[i].id != last.id {
          assert init[i] == es[i];
        }
      }
    }
  }

  /** When every element is text, the surface lists all their ids in list order. */
  lemma {:induction false} AllTextSurface(es: seq<Element>, nodes: map<DomId, Node>)
    requires forall i :: 0 <= i < |es| ==> es[i].kind.TextKind?
    ensures SurfaceFor(es, nodes) == seq(|es|, i requires 0 <= i < |es| => es[i].id)
    decreases |es|
  {
    if es != [] {
      AllTextSurface(es[..|es| - 1], nodes);
    }
  }

  /**
   * A completed rebuild over unique ids: the surface holds exactly the ids of
   * the elements that get an object, once each; those elements are bound to a
   * fresh visible object; every other element, audio included, is left as it
   * was, keeping any object bound by an earlier rebuild.
   */
  lemma RebuildIsomorphism(es: seq<Element>, nodes: map<DomId, Node>)
    requires UniqueIds(es) && FirstUnsupported(es) == |es|
    ensures NoDuplicates(SurfaceFor(es, nodes))
    ensures forall i :: 0 <= i < |es| ==> (es[i].id in SurfaceFor(es, nodes) <==> GetsObject(es[i], nodes))
    ensures forall id :: id in SurfaceFor(es, nodes) ==> exists i :: 0 <= i < |es| && es[i].id == id && GetsObject(es[i], nodes)
    ensures forall i :: 0 <= i < |es| && GetsObject(es[i], nodes) ==>
              BindUpTo(es, |es|, nodes)[i] == es[i].(fabricObject := Some(RenderObject(true)))
    ensures forall i :: 0 <= i < |es| && !GetsObject(es[i], nodes) ==> BindUpTo(es, |es|, nodes)[i] == es[i]
  {
    SurfaceForNoDuplicates(es, nodes);
    forall i | 0 <= i < |es| ensures es[i].id in SurfaceFor(es, nodes) <==> GetsObject(es[i], nodes) {
      SurfaceForMembership(es, nodes, es[i].id);
    }
    forall id | id in SurfaceFor(es, nodes)
      ensures exists i :: 0 <= i < |es| && es[i].id == id && GetsObject(es[i], nodes)
    {
      SurfaceForMembership(es, nodes, id);
    }
  }

  /** One turn of the rebuild loop: element `k` is bound and, if it gets an object, its id appended. */
  lemma RebuildStep(es: seq<Element>, k: int, nodes: map<DomId, Node>)
    requires 0 <= k < |es|
    ensures BindUpTo(es, k + 1, nodes) == BindUpTo(es, k, nodes)[k := Bind(es[k], nodes)]
    ensures SurfaceFor(es[..k + 1], nodes)
            == SurfaceFor(es[..k], nodes) + (if GetsObject(es[k], nodes) then [es[k].id] else [])
  {
    assert es[..k + 1][..k] == es[..k];
  }

  lemma BindUpToKeepsIds(es: seq<Element>, k: int, nodes: map<DomId, Node>)
    ensures |BindUpTo(es, k, nodes)| == |es|
    ensures forall i :: 0 <= i < |es| ==> BindUpTo(es, k, nodes)[i].id == es[i].id
    ensures UniqueIds(es) ==> UniqueIds(BindUpTo(es, k, nodes))
  {
  }
}
