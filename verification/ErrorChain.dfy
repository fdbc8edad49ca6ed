/** The client's error chains: heap nodes linked by `cause`, displayed and freed by loops. */
module ErrorChain {

  /** A character array on the heap, or a string literal. */
  class Str {
    const text: string

    constructor (text: string)
      ensures this.text == text
    {
      this.text := text;
    }
  }

  class Error {
    var code: int
    var desc: Str?
    var cause: Error?

    constructor (code: int, desc: Str?, cause: Error?)
      ensures this.code == code && this.desc == desc && this.cause == cause
    {
      this.code := code;
      this.desc := desc;
      this.cause := cause;
    }
  }

  /** The allocator: `live` is what malloc returned and free has not taken back. */
  class Heap {
    ghost var live: set<object>

    ghost constructor ()
      ensures live == {}
    {
      live := {};
    }

    /** Freeing anything that is not live, a second time or a literal, is undefined. */
    method Free(o: object?)
      requires o == null || o in live
      modifies this
      ensures live == live - {o} && live == old(live) - {o}
    {
      live := live - {o};
    }
  }

  /** The node at `k`, or nil after the last one. */
  function At(nodes: seq<Error>, k: nat): (e: Error?)
    ensures e != null ==> k < |nodes| && e == nodes[k]
    ensures e == null ==> |nodes| <= k
  {
    if k < |nodes| then nodes[k] else null
  }

  /** Following `cause` from `e` gives exactly these nodes. */
  ghost predicate Chain(e: Error?, nodes: seq<Error>)
    reads nodes
  {
    && e == At(nodes, 0)
    && forall k | 0 <= k < |nodes| :: nodes[k].cause == At(nodes, k + 1)
  }

  ghost function Descs(nodes: seq<Error>): (s: seq<Str?>)
    reads nodes
    ensures |s| == |nodes| && forall k | 0 <= k < |nodes| :: s[k] == nodes[k].desc
  {
    if nodes == [] then [] else [nodes[0].desc] + Descs(nodes[1..])
  }

  predicate Distinct(nodes: seq<Error>) {
    forall i, j | 0 <= i < j < |nodes| :: nodes[i] != nodes[j]
  }

  /** Nodes and descriptions are live, and none is shared. */
  predicate OwnedBy(nodes: seq<Error>, descs: seq<Str?>, live: set<object>) {
    && Distinct(nodes)
    && (forall i | 0 <= i < |nodes| :: nodes[i] in live)
    && (forall i | 0 <= i < |descs| && descs[i] != null :: descs[i] in live)
    && (forall i, j | 0 <= i < j < |descs| && descs[i] != null :: descs[i] != descs[j])
  }

  function Objects(nodes: seq<Error>, descs: seq<Str?>): set<object>
    requires |nodes| == |descs|
  {
    if nodes == [] then {}
    else {nodes[0]} + (if descs[0] == null then {} else {descs[0] as object}) + Objects(nodes[1..], descs[1..])
  }

  lemma {:induction false} ObjectsAre(nodes: seq<Error>, descs: seq<Str?>, o: object)
    requires |nodes| == |descs|
    ensures o in Objects(nodes, descs) <==>
            exists i :: 0 <= i < |nodes| && (nodes[i] == o || (descs[i] != null && descs[i] == o))
  {
    if nodes != [] {
      ObjectsAre(nodes[1..], descs[1..], o);
      if i :| 0 <= i < |nodes| && (nodes[i] == o || (descs[i] != null && descs[i] == o)) {
        if i > 0 {
          assert nodes[1..][i - 1] == nodes[i] && descs[1..][i - 1] == descs[i];
        }
      }
    }
  }

  lemma OwnedCons(node: Error, desc: Str?, nodes: seq<Error>, descs: seq<Str?>, live: set<object>, live': set<object>)
    requires |nodes| == |descs| && OwnedBy(nodes, descs, live)
    requires node !in live && (desc != null ==> desc !in live)
    requires live' == live + Objects([node], [desc])
    ensures OwnedBy([node] + nodes, [desc] + descs, live')
  {
    var all, texts := [node] + nodes, [desc] + descs;
    forall i | 0 <= i < |all| ensures all[i] in live' && (i > 0 ==> all[i] in live) {
      assert i > 0 ==> all[i] == nodes[i - 1];
    }
    forall i | 0 <= i < |texts| && texts[i] != null ensures texts[i] in live' && (i > 0 ==> texts[i] in live) {
      assert i > 0 ==> texts[i] == descs[i - 1];
    }
  }

  ghost predicate Owned(nodes: seq<Error>, live: set<object>)
    reads nodes
  {
    OwnedBy(nodes, Descs(nodes), live)
  }

  ghost predicate AllDescribed(nodes: seq<Error>)
    reads nodes
  {
    null !in Descs(nodes)
  }

  ghost function Footprint(nodes: seq<Error>): set<object>
    reads nodes
  {
    Objects(nodes, Descs(nodes))
  }

  /** `err_new___`; strdup may fail and leave the description nil. */
  method ErrNew(heap: Heap, code: int, desc: string, cause: Error?, strdupOk: bool, ghost causes: seq<Error>)
    returns (e: Error)
    requires Chain(cause, causes) && Owned(causes, heap.live)
    modifies heap
    ensures fresh(e) && e.code == code && e.cause == cause
    ensures strdupOk ==> e.desc != null && fresh(e.desc) && e.desc.text == desc
    ensures !strdupOk ==> e.desc == null
    ensures Chain(e, [e] + causes) && Owned([e] + causes, heap.live)
    ensures heap.live == old(heap.live) + Footprint([e])
  {
    hide OwnedBy, Objects;
    ghost var live, descs := heap.live, Descs(causes);
    var copy: Str? := null;
    if strdupOk {
      copy := new Str(desc);
      heap.live := heap.live + {copy};
    }
    e := new Error(code, copy, cause);
    heap.live := heap.live + {e};
    ghost var nodes := [e] + causes;
    assert Descs(nodes) == [copy] + descs && Descs([e]) == [copy];
    OneNode(e, copy);
    OwnedCons(e, copy, causes, descs, live, heap.live);
    forall k | 0 <= k < |nodes| ensures nodes[k].cause == At(nodes, k + 1) {
      assert k > 0 ==> nodes[k] == causes[k - 1];
    }
  }

  lemma OneNode(node: Error, desc: Str?)
    ensures Objects([node], [desc]) == if desc == null then {node as object} else {node as object, desc as object}
  {
    assert [node][1..] == [] && [desc][1..] == [];
  }

  /** `clean_errchain`: frees every node and every description once, and nothing else. */
  method CleanErrchain(heap: Heap, e: Error?, ghost nodes: seq<Error>)
    requires Chain(e, nodes) && Owned(nodes, heap.live)
    modifies heap
    ensures heap.live == old(heap.live) - Footprint(nodes)
  {
    ghost var descs := Descs(nodes);
    hide OwnedBy, Objects;
    var next: Error? := e;
    ghost var i := 0;
    assert nodes[0..] == nodes && descs[0..] == descs;
    while next != null
      invariant 0 <= i <= |nodes| && next == At(nodes, i)
      invariant OwnedBy(nodes[i..], descs[i..], heap.live)
      invariant old(heap.live) - Objects(nodes, descs) == heap.live - Objects(nodes[i..], descs[i..])
      decreases |nodes| - i
    {
      var err := next;
      assert nodes[i..][1..] == nodes[i + 1..] && descs[i..][1..] == descs[i + 1..];
      FreedApart(nodes[i..], descs[i..], heap.live);
      // both reads precede the frees
      next := err.cause;
      var desc := err.desc;
      heap.Free(desc);
      heap.Free(err);
      i := i + 1;
    }
    NoObjects(nodes[i..], descs[i..]);
  }

  /** The head and its description can be freed one after the other, and the tail stays whole. */
  lemma FreedApart(nodes: seq<Error>, descs: seq<Str?>, live: set<object>)
    requires nodes != [] && |descs| == |nodes| && OwnedBy(nodes, descs, live)
    ensures nodes[0] in live && nodes[0] as object != descs[0] && (descs[0] != null ==> descs[0] in live)
    ensures OwnedBy(nodes[1..], descs[1..], live - {descs[0]} - {nodes[0]})
    ensures live - Objects(nodes, descs) == live - {descs[0]} - {nodes[0]} - Objects(nodes[1..], descs[1..])
  {
    var tail, rest := nodes[1..], descs[1..];
    forall i | 0 <= i < |tail| ensures tail[i] == nodes[i + 1] && tail[i] != nodes[0] {}
    forall i | 0 <= i < |rest| ensures rest[i] == descs[i + 1] && (rest[i] != null ==> rest[i] != descs[0]) {}
    ObjectsAre(tail, rest, nodes[0]);
    if descs[0] != null {
      ObjectsAre(tail, rest, descs[0]);
    }
  }

  lemma NoObjects(nodes: seq<Error>, descs: seq<Str?>)
    requires nodes == [] && descs == []
    ensures Objects(nodes, descs) == {}
  {
  }

  datatype Line = Line(desc: string, code: int)

  ghost function Codes(nodes: seq<Error>): (s: seq<int>)
    reads nodes
    ensures |s| == |nodes| && forall k | 0 <= k < |nodes| :: s[k] == nodes[k].code
  {
    if nodes == [] then [] else [nodes[0].code] + Codes(nodes[1..])
  }

  function LineOf(desc: Str?, code: int): Line {
    Line(if desc == null then "" else desc.text, code)
  }

  function LinesOf(descs: seq<Str?>, codes: seq<int>): (lines: seq<Line>)
    requires |descs| == |codes|
    ensures |lines| == |descs|
    ensures forall k | 0 <= k < |descs| :: lines[k] == LineOf(descs[k], codes[k])
  {
    seq(|descs|, k requires 0 <= k < |descs| => LineOf(descs[k], codes[k]))
  }

  /** What `display_errchain` prints, from the outermost node to the root cause. */
  ghost function Lines(nodes: seq<Error>): (lines: seq<Line>)
    reads nodes
    ensures |lines| == |nodes|
    ensures forall k | 0 <= k < |nodes| ::
              lines[k].code == nodes[k].code
              && lines[k].desc == if nodes[k].desc == null then "" else nodes[k].desc.text
  {
    LinesOf(Descs(nodes), Codes(nodes))
  }

  function Replaced(descs: seq<Str?>, literal: Str): (s: seq<Str?>)
    ensures |s| == |descs|
  {
    seq(|descs|, k requires 0 <= k < |descs| => if descs[k] == null then literal else descs[k])
  }

  /** The first `i` nodes have been printed, and their nil descriptions replaced. */
  ghost predicate Printed(e: Error?, nodes: seq<Error>, descs: seq<Str?>, codes: seq<int>, i: nat, literal: Str)
    reads nodes
  {
    && Chain(e, nodes) && Distinct(nodes) && |descs| == |codes| == |nodes| && i <= |nodes|
    && (forall k | 0 <= k < |nodes| :: nodes[k].desc == if k < i && descs[k] == null then literal else descs[k])
    && (forall k | 0 <= k < |nodes| :: nodes[k].code == codes[k])
  }

  /** One turn of the loop: a nil description is replaced by the literal "". */
  method PrintNode(node: Error, literal: Str, ghost e: Error?, ghost nodes: seq<Error>, ghost descs: seq<Str?>,
                   ghost codes: seq<int>, ghost i: nat)
    returns (line: Line, next: Error?)
    requires Printed(e, nodes, descs, codes, i, literal) && i < |nodes| && node == nodes[i] && literal.text == ""
    modifies node`desc
    ensures Printed(e, nodes, descs, codes, i + 1, literal)
    ensures line == LineOf(descs[i], codes[i])
    ensures next == At(nodes, i + 1)
  {
    if node.desc == null {
      node.desc := literal;
    }
    line := Line(node.desc.text, node.code);
    next := node.cause;
  }

  lemma PrintedFrom(e: Error?, nodes: seq<Error>, descs: seq<Str?>, codes: seq<int>, i: nat, literal: Str)
    requires Printed(e, nodes, descs, codes, i, literal)
    ensures e == At(nodes, 0) && |descs| == |codes| == |nodes|
  {
  }

  /** The loop of `display_errchain`. */
  method PrintNodes(e: Error?, literal: Str, ghost nodes: seq<Error>, ghost descs: seq<Str?>, ghost codes: seq<int>)
    returns (lines: seq<Line>)
    requires Printed(e, nodes, descs, codes, 0, literal) && literal.text == ""
    modifies nodes`desc
    ensures |descs| == |codes| && lines == LinesOf(descs, codes)
    ensures Printed(e, nodes, descs, codes, |nodes|, literal)
  {
    hide *;
    PrintedFrom(e, nodes, descs, codes, 0, literal);
    lines := [];
    var node: Error? := e;
    ghost var i := 0;
    while node != null
      invariant i <= |nodes| && node == At(nodes, i)
      invariant Printed(e, nodes, descs, codes, i, literal)
      invariant |lines| == i && forall k | 0 <= k < i :: lines[k] == LineOf(descs[k], codes[k])
      decreases |nodes| - i
    {
      var line;
      line, node := PrintNode(node, literal, e, nodes, descs, codes, i);
      lines := lines + [line];
      i := i + 1;
    }
  }

  /** `display_errchain`: prints the chain and keeps every link. After that the chain can be
      cleaned exactly if no description was nil, because a literal cannot be freed. */
  method DisplayErrchain(e: Error?, literal: Str, ghost nodes: seq<Error>, ghost live: set<object>)
    returns (lines: seq<Line>)
    requires Chain(e, nodes) && Owned(nodes, live) && literal.text == "" && literal !in live
    modifies nodes
    ensures lines == old(Lines(nodes))
    ensures Chain(e, nodes)
    ensures Owned(nodes, live) <==> old(AllDescribed(nodes))
    ensures old(AllDescribed(nodes)) ==> Footprint(nodes) == old(Footprint(nodes))
  {
    ghost var descs := Descs(nodes);
    assert Distinct(nodes);
    hide Lines, OwnedBy, Objects;
    lines := PrintNodes(e, literal, nodes, descs, Codes(nodes));
    assert Descs(nodes) == Replaced(descs, literal);
    ReplacedOwned(nodes, descs, live, literal);
  }

  lemma ReplacedOwned(nodes: seq<Error>, descs: seq<Str?>, live: set<object>, literal: Str)
    requires OwnedBy(nodes, descs, live) && literal !in live
    ensures OwnedBy(nodes, Replaced(descs, literal), live) <==> null !in descs
    ensures null !in descs ==> Replaced(descs, literal) == descs
  {
    if null in descs {
      var i :| 0 <= i < |descs| && descs[i] == null;
      assert Replaced(descs, literal)[i] == literal;
    } else {
      assert Replaced(descs, literal) == descs;
    }
  }

  /** `display_clean_errchain___`, on the chains it is defined for. */
  method DisplayCleanErrchain(heap: Heap, e: Error?, literal: Str, ghost nodes: seq<Error>)
    returns (lines: seq<Line>)
    requires Chain(e, nodes) && Owned(nodes, heap.live)
    requires literal.text == "" && literal !in heap.live
    requires AllDescribed(nodes)
    modifies heap, nodes
    ensures lines == old(Lines(nodes))
    ensures heap.live == old(heap.live) - old(Footprint(nodes))
  {
    lines := DisplayErrchain(e, literal, nodes, heap.live);
    CleanErrchain(heap, e, nodes);
  }
}
