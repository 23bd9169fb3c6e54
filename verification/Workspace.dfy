// Single-operation materializer over a sealed base, and the log of vectors an
// operation produces.
module Workspaces {
  import opened Words
  import opened Geometry
  import opened Nodes
  import opened ListTree

  // A retained vector with pointers to its retained children.
  datatype Retained = Retained(ref: Ref, children: seq<Retained>) {
    // Full vectors whose child pointers match the child cells, all the way down.
    ghost predicate Faithful(b: Radix) {
      && WellTagged(ref) && |ref.cells| == Slots(b)
      && |children| == |ChildRefs(ref.cells)|
      && forall i :: 0 <= i < |children| ==>
          children[i].ref == ChildRefs(ref.cells)[i] && children[i].Faithful(b)
    }
  }

  // References of the child cells, in slot order.
  ghost function ChildRefs(cells: seq<Cell>): (refs: seq<Ref>)
    ensures forall r :: r in refs <==> Child(r) in cells
  {
    if cells == [] then [] else
      var last := cells[|cells| - 1];
      var front := ChildRefs(cells[..|cells| - 1]);
      assert cells == cells[..|cells| - 1] + [last];
      if last.Child? then front + [last.ref] else front
  }

  class Workspace {
    const b: Radix
    var known: map<Ref, Retained>
    ghost var written: seq<Ref>   // every vector accepted by PutComputed, in order

    ghost predicate Valid()
      reads this
    {
      forall r :: r in known ==> known[r].ref == r && known[r].Faithful(b)
    }

    constructor (b: Radix, base: Option<Retained>)
      requires base.Some? ==> base.value.Faithful(b)
      ensures Valid() && this.b == b
      ensures known.Keys == (if base.Some? then {base.value.ref} else {}) && written == []
    {
      this.b := b;
      written := [];
      known := if base.Some? then map[base.value.ref := base.value] else map[];
    }

    // Reading a node makes its children readable.
    method GetNode(ref: Ref) returns (r: Result<seq<Cell>, Error>)
      requires Valid()
      modifies this
      ensures Valid() && written == old(written)
      ensures if ref in old(known)
        then r == Ok(ref.cells) && |ref.cells| == Slots(b) && WellTagged(ref)
             && known.Keys == old(known.Keys) + Children(ref)
        else r == Err(Incomplete) && known == old(known)
    {
      if ref !in known {
        return Err(Incomplete);
      }
      var n := known[ref];
      for i := 0 to |n.children|
        invariant Valid() && written == old(written)
        invariant known.Keys == old(known.Keys) + set j | 0 <= j < i :: n.children[j].ref
      {
        known := known[n.children[i].ref := n.children[i]];
      }
      assert forall c :: c in Children(ref) <==> c in ChildRefs(ref.cells);
      return Ok(n.ref.cells);
    }

    // Retains a vector whose commitment was just computed; its children must be known.
    method PutComputed(ref: Ref) returns (r: Result<(), Error>)
      requires Valid() && |ref.cells| == Slots(b)
      modifies this
      ensures Valid()
      ensures if ref in old(known) || (WellTagged(ref) && Children(ref) <= old(known.Keys))
        then r == Ok(()) && known.Keys == old(known.Keys) + {ref} && written == old(written) + [ref]
        else r.Err? && known == old(known) && written == old(written)
    {
      if ref in known {
        written := written + [ref];
        return Ok(());
      }
      var children := ResolveChildren(ref);
      if children.Err? {
        return Err(children.error);
      }
      known := known[ref := Retained(ref, children.value)];
      written := written + [ref];
      return Ok(());
    }

    // The retained nodes that the child cells of a vector point to.
    method ResolveChildren(ref: Ref) returns (r: Result<seq<Retained>, Error>)
      requires Valid()
      ensures r.Ok? <==> WellTagged(ref) && Children(ref) <= known.Keys
      ensures r.Ok? ==> |r.value| == |ChildRefs(ref.cells)|
      ensures r.Ok? ==> forall k :: 0 <= k < |r.value| ==> (
        r.value[k].ref == ChildRefs(ref.cells)[k] && r.value[k].Faithful(b))
    {
      hide Retained.Faithful;
      var children: seq<Retained> := [];
      for i := 0 to |ref.cells|
        invariant forall cell :: cell in ref.cells[..i] && cell != Blank && Tag(cell) == CHILD_NODE ==>
          cell.Child? && cell.ref.layout == ref.layout && cell.ref in known
        invariant |children| == |ChildRefs(ref.cells[..i])|
        invariant forall k :: 0 <= k < |children| ==>
          children[k].ref == ChildRefs(ref.cells[..i])[k] && children[k].Faithful(b)
      {
        var cell := ref.cells[i];
        assert ref.cells[..i + 1][..i] == ref.cells[..i];
        if cell == Blank || Tag(cell) != CHILD_NODE {
          continue;
        }
        var child := ParseChild(cell, ref);
        if child.Err? {
          return Err(child.error);
        }
        if child.value !in known {
          assert child.value in Children(ref);
          return Err(Incomplete);
        }
        children := children + [known[child.value]];
      }
      assert ref.cells[..|ref.cells|] == ref.cells;
      return Ok(children);
    }

    method Seal(ref: Ref) returns (r: Result<Retained, Error>)
      requires Valid()
      ensures if ref in known then r.Ok? && r.value.ref == ref && r.value.Faithful(b) else r == Err(Incomplete)
    {
      return if ref in known then Ok(known[ref]) else Err(Incomplete);
    }
  }

  // Receives the vectors a construction computes, in the order it computes them.
  class Builder {
    const b: Radix
    var log: seq<Ref>
    ghost var emitted: set<Ref>

    // Every vector follows its children, except those known beforehand.
    ghost predicate Ordered(known: set<Ref>)
      reads this
    {
      && Closed(known, log) && emitted == Members(log)
      && forall r :: r in log ==> |r.cells| == Slots(b)
    }

    constructor (b: Radix)
      ensures this.b == b && log == [] && emitted == {} && Ordered({})
    {
      this.b := b;
      log := [];
      emitted := {};
    }

    // Commits a full vector and emits it.
    method Commit(layout: Layout, cells: seq<Cell>, ghost known: set<Ref>) returns (ref: Ref)
      requires Ordered(known) && WellTagged(Ref(layout, cells)) && |cells| == Slots(b)
      requires forall k :: 0 <= k < |cells| && cells[k].Child? ==> cells[k].ref in known + emitted
      modifies this
      ensures ref == Ref(layout, cells) && log == old(log) + [ref] && emitted == old(emitted) + {ref}
      ensures Ordered(known)
    {
      ref := Ref(layout, cells);
      ClosedSnoc(known, log, ref);
      log := log + [ref];
      emitted := emitted + {ref};
    }

    // The reference List construction.
    method ListNode(items: seq<Target>, p: Position, kind: Kind, ghost known: set<Ref>) returns (ref: Ref)
      requires |items| == p.count && p.root == kind.Root? && p.Fits(b)
      requires Ordered(known)
      modifies this
      ensures ref == ListTree.ListNode(b, items, p.height, kind)
      ensures Ordered(known) && emitted >= old(emitted) + {ref}
      decreases p.height
    {
      hide ListTree.ListNode, ListTree.ListCell, Position.Used, Position.Child, Position.Fits, Ordered, WellTagged,
        Span, Times;
      var cells := seq(Slots(b), _ => Blank);
      if p.root {
        cells := cells[0 := Meta(p.count, kind.payload)];
      }
      ghost var want := ListTree.ListNode(b, items, p.height, kind).cells;
      UsedFits(p, b);
      CanonicalMeta(b, items, p.height, kind);
      CanonicalShape(b, items, p.height, kind);
      if p.height == 0 {
        LeafUsed(p, b);
        for i := 0 to |items|
          invariant Ordered(known) && emitted >= old(emitted)
          invariant |cells| == |want|
          invariant forall k :: 0 <= k < |cells| ==>
            cells[k] == if k < p.Base() + i then want[k] else Blank
        {
          CanonicalCell(b, items, p.height, kind, i);
          cells := cells[p.Base() + i := ListLeaf(items[i])];
        }
      } else {
        for digit := 0 to p.Used(b)
          invariant Ordered(known) && emitted >= old(emitted)
          invariant |cells| == |want|
          invariant forall k :: 0 <= k < |cells| ==>
            cells[k] == if k < p.Base() + digit then want[k] else Blank
          invariant forall k :: 0 <= k < |cells| && cells[k].Child? ==> cells[k].ref in emitted
        {
          CanonicalChild(b, items, p, kind, digit);
          var (child, start) := p.Child(digit, b);
          var sub := ListNode(items[start..start + child.count], child, Inner, known);
          cells := cells[p.Base() + digit := Child(sub)];
        }
      }
      assert cells == want;
      ref := Commit(ListLayout, cells, known);
    }
  }

  lemma OrderedFacts(u: Builder, known: set<Ref>)
    requires u.Ordered(known)
    ensures Closed(known, u.log) && u.emitted == Members(u.log)
    ensures forall r :: r in u.log ==> |r.cells| == Slots(u.b)
  {
  }

  lemma EditNodes(u: NodeEdit)
    requires u.Valid()
    ensures u.nodes.Valid() && u.nodes.b == u.b
  {
  }

  // One edit: reads through a workspace, validates each loaded vector once, and
  // stages its output until everything has succeeded.
  class NodeEdit {
    const b: Radix
    const nodes: Workspace
    const builder: Builder   // its log is the list of staged vectors
    var loaded: set<Ref>

    ghost predicate Valid()
      reads this, nodes, builder
    {
      && nodes.b == b && builder.b == b
      && nodes.Valid()
      && builder.Ordered(nodes.known.Keys)
      && loaded <= nodes.known.Keys
      && forall r, c :: r in loaded && c in Children(r) ==> c in nodes.known
    }

    constructor (nodes: Workspace)
      requires nodes.Valid()
      ensures this.nodes == nodes && b == nodes.b && fresh(builder)
      ensures Valid() && builder.log == []
    {
      this.b := nodes.b;
      this.nodes := nodes;
      this.builder := new Builder(nodes.b);
      loaded := {};
      new;
      ClosedWiden({}, nodes.known.Keys, builder.log);
    }

    method GetNode(ref: Ref) returns (r: Result<seq<Cell>, Error>)
      requires Valid()
      modifies this, nodes
      ensures Valid() && nodes.known.Keys >= old(nodes.known.Keys) && nodes.written == old(nodes.written)
      ensures if ref in old(nodes.known)
        then r == Ok(ref.cells) && |ref.cells| == Slots(b) && WellTagged(ref) && Children(ref) <= nodes.known.Keys
        else r == Err(Incomplete)
    {
      if ref in loaded {
        return Ok(ref.cells);
      }
      r := nodes.GetNode(ref);
      if r.Ok? {
        loaded := loaded + {ref};
      }
      ClosedWiden(old(nodes.known.Keys), nodes.known.Keys, builder.log);
    }

    // References that can be part of a staged vector.
    ghost function Avail(): set<Ref>
      reads nodes, builder
    {
      nodes.known.Keys + builder.emitted
    }

    method BuildList(items: seq<Target>, p: Position, kind: Kind) returns (ref: Ref)
      requires Valid() && |items| == p.count && p.root == kind.Root? && p.Fits(b)
      modifies builder
      ensures Valid() && Avail() >= old(Avail()) + {ref}
      ensures ref == ListTree.ListNode(b, items, p.height, kind) && ref.layout == ListLayout
    {
      ref := builder.ListNode(items, p, kind, nodes.known.Keys);
    }

    method Commit(layout: Layout, cells: seq<Cell>) returns (ref: Ref)
      requires Valid() && WellTagged(Ref(layout, cells)) && |cells| == Slots(b)
      requires forall k :: 0 <= k < |cells| && cells[k].Child? ==> cells[k].ref in Avail()
      modifies builder
      ensures Valid() && Avail() >= old(Avail()) + {ref} && ref == Ref(layout, cells)
    {
      ref := builder.Commit(layout, cells, nodes.known.Keys);
    }

    // Writes the staged vectors in order. Staging children first is what makes
    // this succeed: the workspace refuses a vector with an unknown child.
    method Finish(ref: Ref) returns (r: Result<Ref, Error>)
      requires Valid() && ref in Avail()
      modifies nodes
      ensures nodes.Valid() && r == Ok(ref)
      ensures nodes.known.Keys == old(nodes.known.Keys) + Members(builder.log)
      ensures ref in nodes.known && nodes.written == old(nodes.written) + builder.log
    {
      hide Closed, Builder.Ordered, Workspace.Valid, Children, WellTagged, Members;
      ghost var base := nodes.known.Keys;
      OrderedFacts(builder, base);
      MembersAll(builder.log);
      for i := 0 to |builder.log|
        invariant nodes.Valid()
        invariant nodes.known.Keys == base + Members(builder.log[..i])
        invariant nodes.written == old(nodes.written) + builder.log[..i]
      {
        ClosedAt(base, builder.log, i);
        var put := nodes.PutComputed(builder.log[i]);
        assert put.Ok?;
        MembersNext(builder.log, i);
      }
      return Ok(ref);
    }
  }
}
