// Authentication vectors. Commitments are symbolic: a reference *is* the vector
// it commits to, so committing is deterministic and binding by construction.
module Nodes {
  import opened Words

  type Label = seq<byte>
  type Target = seq<byte>

  datatype Layout = MapLayout | ListLayout

  // A cell decoded by its tag. Malformed keeps the tag byte of a nonempty cell
  // whose remaining bytes do not parse under that tag.
  datatype Cell =
    | Blank
    | MapLeaf(name: Label, target: Target)
    | Child(ref: Ref)
    | ListLeaf(target: Target)
    | Meta(count: U64, payload: Option<Target>)
    | Malformed(tag: byte, body: seq<byte>)

  datatype Ref = Ref(layout: Layout, cells: seq<Cell>)

  const MAP_LEAF: byte := 1
  const CHILD_NODE: byte := 2
  const LIST_LEAF: byte := 3
  const METADATA: byte := 4

  datatype Error =
    | Incomplete          // materialized state is missing
    | BadNode             // wrong cell role, shape, route or layout
    | Mismatch            // old target differs from the authenticated state
    | Collision           // distinct labels at one coordinate
    | Duplicate           // one coordinate twice in a batch
    | Undefined           // a target that must be defined is not
    | OutOfRange          // count, index or bound violated
    | BadSelector         // label does not derive to the supplied coordinate

  function Tag(cell: Cell): byte
    requires cell != Blank
  {
    match cell
    case MapLeaf(_, _) => MAP_LEAF
    case Child(_) => CHILD_NODE
    case ListLeaf(_) => LIST_LEAF
    case Meta(_, _) => METADATA
    case Malformed(tag, _) => tag
  }

  // An internal reference is accepted only under the parent's own layout.
  function ParseChild(cell: Cell, expected: Ref): Result<Ref, Error> {
    if cell.Child? && cell.ref.layout == expected.layout then Ok(cell.ref) else Err(BadNode)
  }

  function ParseMap(cell: Cell): Result<(Label, Target), Error> {
    if cell.MapLeaf? then Ok((cell.name, cell.target)) else Err(BadNode)
  }

  function ParseList(cell: Cell): Result<Target, Error> {
    if cell.ListLeaf? then Ok(cell.target) else Err(BadNode)
  }

  datatype Metadata = Metadata(count: U64, payload: Option<Target>)

  function ParseMetadata(cell: Cell): Result<Metadata, Error> {
    if cell.Meta? then Ok(Metadata(cell.count, cell.payload)) else Err(BadNode)
  }

  ghost function Children(r: Ref): (s: set<Ref>)
    ensures forall c :: c in s <==> Child(c) in r.cells
  {
    set cell | cell in r.cells && cell.Child? :: cell.ref
  }

  // Every cell tagged as a child is a readable reference of this layout.
  ghost predicate WellTagged(r: Ref) {
    forall cell :: cell in r.cells && cell != Blank && Tag(cell) == CHILD_NODE ==>
      cell.Child? && cell.ref.layout == r.layout
  }

  // A log of emitted vectors in which every vector follows its children, unless
  // they were already known.
  ghost predicate Closed(known: set<Ref>, log: seq<Ref>) {
    forall i :: 0 <= i < |log| ==>
      WellTagged(log[i]) && forall c :: c in Children(log[i]) ==> c in known || c in log[..i]
  }

  lemma ClosedSnoc(known: set<Ref>, log: seq<Ref>, r: Ref)
    requires Closed(known, log) && WellTagged(r)
    requires forall c :: c in Children(r) ==> c in known || c in log
    ensures Closed(known, log + [r])
  {
    var next := log + [r];
    forall i | 0 <= i < |next|
      ensures WellTagged(next[i])
      ensures forall c :: c in Children(next[i]) ==> c in known || c in next[..i]
    {
      if i < |log| {
        assert next[..i] == log[..i];
      } else {
        assert next[..i] == log;
      }
    }
  }

  lemma ClosedAt(known: set<Ref>, log: seq<Ref>, i: nat)
    requires Closed(known, log) && i < |log|
    ensures WellTagged(log[i]) && Children(log[i]) <= known + Members(log[..i])
  {
  }

  ghost function Members(log: seq<Ref>): set<Ref> {
    set r | r in log
  }

  lemma MembersNext(log: seq<Ref>, i: nat)
    requires i < |log|
    ensures Members(log[..i + 1]) == Members(log[..i]) + {log[i]} && log[..i + 1] == log[..i] + [log[i]]
  {
  }

  lemma MembersAll(log: seq<Ref>)
    ensures log[..|log|] == log && Members([]) == {} && log[..0] == []
  {
  }

  lemma ClosedWiden(small: set<Ref>, big: set<Ref>, log: seq<Ref>)
    requires Closed(small, log) && small <= big
    ensures Closed(big, log)
  {
  }
}
