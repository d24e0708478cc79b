/**
 assets/codegen/ui: which fragments a generated operation carries with it.

 The registry is a plain JavaScript object, so a lookup also finds the names it inherits (`constructor`,
 `toString`, ...). `inherited` is that set of names; nothing else is known of it.
 */
module Fragments {
  import opened Wrappers

  /** A GraphQL syntax node as collectSpreads sees it: a spread, or whatever hangs below the two keys it follows. */
  datatype Node = Spread(name: string) | Branch(selectionSet: Option<Node>, selections: seq<Node>)

  datatype Definition = OperationDefinition(node: Node) | FragmentDefinition(name: string, node: Node) | OtherDefinition

  datatype Document = Document(location: string, definitions: seq<Definition>)

  /** `source` is the text of the fragment's whole file, by what it parses to. */
  datatype Fragment = Fragment(location: string, source: seq<Definition>, spreads: seq<string>)

  type Registry = map<string, Fragment>

  // ---------------------------------------------------------------- collectSpreads

  /** Adding to a JavaScript Set, which keeps insertion order. */
  function Add(acc: seq<string>, name: string): seq<string> {
    if name in acc then acc else acc + [name]
  }

  function CollectSpreads(node: Node, acc: seq<string>): seq<string>
    decreases node, 1
  {
    match node
    case Spread(name) => Add(acc, name)
    case Branch(set_, selections) =>
      CollectAll(selections, if set_.Some? then CollectSpreads(set_.value, acc) else acc)
  }

  function CollectAll(nodes: seq<Node>, acc: seq<string>): seq<string>
    decreases nodes, 0
  {
    if nodes == [] then acc else CollectAll(nodes[1..], CollectSpreads(nodes[0], acc))
  }

  /** Every spread below the node, in document order, repetitions included. */
  function Occurrences(node: Node): seq<string>
    decreases node, 1
  {
    match node
    case Spread(name) => [name]
    case Branch(set_, selections) =>
      (if set_.Some? then Occurrences(set_.value) else []) + OccurrencesOfAll(selections)
  }

  function OccurrencesOfAll(nodes: seq<Node>): seq<string>
    decreases nodes, 0
  {
    if nodes == [] then [] else Occurrences(nodes[0]) + OccurrencesOfAll(nodes[1..])
  }

  /** First occurrences only. */
  function AddAll(acc: seq<string>, names: seq<string>): seq<string>
    decreases |names|
  {
    if names == [] then acc else AddAll(Add(acc, names[0]), names[1..])
  }

  lemma {:induction false} AddAllConcat(acc: seq<string>, a: seq<string>, b: seq<string>)
    ensures AddAll(acc, a + b) == AddAll(AddAll(acc, a), b)
    decreases |a|
  {
    if a == [] {
      assert a + b == b;
    } else {
      assert (a + b)[1..] == a[1..] + b;
      AddAllConcat(Add(acc, a[0]), a[1..], b);
    }
  }

  /** The accumulator ends up holding the spreads in document order, each once. */
  lemma {:induction false} CollectIsFirstOccurrences(node: Node, acc: seq<string>)
    ensures CollectSpreads(node, acc) == AddAll(acc, Occurrences(node))
    decreases node, 1
  {
    match node
    case Spread(name) =>
    case Branch(set_, selections) =>
      var before := if set_.Some? then Occurrences(set_.value) else [];
      AddAllConcat(acc, before, OccurrencesOfAll(selections));
      if set_.Some? {
        CollectIsFirstOccurrences(set_.value, acc);
      }
      CollectAllIsFirstOccurrences(selections, AddAll(acc, before));
  }

  lemma {:induction false} CollectAllIsFirstOccurrences(nodes: seq<Node>, acc: seq<string>)
    ensures CollectAll(nodes, acc) == AddAll(acc, OccurrencesOfAll(nodes))
    decreases nodes, 0
  {
    if nodes != [] {
      CollectIsFirstOccurrences(nodes[0], acc);
      AddAllConcat(acc, Occurrences(nodes[0]), OccurrencesOfAll(nodes[1..]));
      CollectAllIsFirstOccurrences(nodes[1..], AddAll(acc, Occurrences(nodes[0])));
    }
  }

  predicate Distinct(names: seq<string>) {
    forall i, j | 0 <= i < j < |names| :: names[i] != names[j]
  }

  lemma {:induction false} AddAllElements(acc: seq<string>, names: seq<string>)
    requires Distinct(acc)
    ensures Distinct(AddAll(acc, names))
    ensures forall x :: x in AddAll(acc, names) <==> x in acc || x in names
    decreases |names|
  {
    if names != [] {
      AddAllElements(Add(acc, names[0]), names[1..]);
      assert forall x :: x in names <==> x == names[0] || x in names[1..];
    }
  }

  /** collectSpreads returns exactly the names spread below the node, each once. */
  lemma CollectedExactly(node: Node)
    ensures Distinct(CollectSpreads(node, []))
    ensures forall x :: x in CollectSpreads(node, []) <==> x in Occurrences(node)
  {
    CollectIsFirstOccurrences(node, []);
    AddAllElements([], Occurrences(node));
  }

  /** The index of a name's first occurrence. */
  function First(names: seq<string>, x: string): (i: nat)
    requires x in names
    ensures i < |names| && names[i] == x && x !in names[..i]
  {
    if names[0] == x then 0 else 1 + First(names[1..], x)
  }

  lemma {:induction false} AddAllAppends(acc: seq<string>, names: seq<string>)
    ensures acc <= AddAll(acc, names)
    decreases |names|
  {
    if names != [] {
      AddAllAppends(Add(acc, names[0]), names[1..]);
    }
  }

  /** Names already there come first; the others stand by their first occurrences. */
  lemma {:induction false} AddedInOrder(acc: seq<string>, names: seq<string>)
    requires Distinct(acc)
    ensures acc <= AddAll(acc, names)
    ensures forall i | |acc| <= i < |AddAll(acc, names)| :: AddAll(acc, names)[i] in names
    ensures forall i, j | |acc| <= i < j < |AddAll(acc, names)| ::
              First(names, AddAll(acc, names)[i]) < First(names, AddAll(acc, names)[j])
    decreases |names|
  {
    AddAllAppends(acc, names);
    if names != [] {
      var acc', rest, all := Add(acc, names[0]), names[1..], AddAll(acc, names);
      AddAllElements(acc, names);
      AddedInOrder(acc', rest);
      forall i | |acc'| <= i < |all| ensures all[i] in rest && all[i] in names && First(names, all[i]) == 1 + First(rest, all[i]) {
        assert all[i] != names[0] by {
          assert names[0] in acc';
          var k :| 0 <= k < |acc'| && acc'[k] == names[0];
          assert all[k] == names[0];
        }
      }
    }
  }

  /** What collectSpreads collects stands in the order of the first occurrences. */
  lemma CollectedInOrder(node: Node)
    ensures var names := CollectSpreads(node, []);
            && (forall i | 0 <= i < |names| :: names[i] in Occurrences(node))
            && forall i, j | 0 <= i < j < |names| :: First(Occurrences(node), names[i]) < First(Occurrences(node), names[j])
  {
    CollectIsFirstOccurrences(node, []);
    AddedInOrder([], Occurrences(node));
  }

  // ---------------------------------------------------------------- where the spreads are

  /** The spread of that name stands at that place: 0 leads to the selection set, k to the k-th selection. */
  predicate SpreadAt(node: Node, place: seq<nat>, name: string)
    decreases place
  {
    match node
    case Spread(n) => place == [] && n == name
    case Branch(set_, selections) =>
      && place != []
      && if place[0] == 0 then set_.Some? && SpreadAt(set_.value, place[1..], name) else SpreadAmong(selections, 1, place, name)
  }

  predicate SpreadAmong(nodes: seq<Node>, from: nat, place: seq<nat>, name: string)
    decreases place, 0
  {
    place != [] && from <= place[0] < from + |nodes| && SpreadAt(nodes[place[0] - from], place[1..], name)
  }

  /** Document order. */
  predicate Precedes(p: seq<nat>, q: seq<nat>)
    decreases |p|
  {
    p != [] && q != [] && (p[0] < q[0] || (p[0] == q[0] && Precedes(p[1..], q[1..])))
  }

  function At(k: nat, places: seq<seq<nat>>): seq<seq<nat>> {
    seq(|places|, i requires 0 <= i < |places| => [k] + places[i])
  }

  function Places(node: Node): seq<seq<nat>>
    decreases node, 1
  {
    match node
    case Spread(name) => [[]]
    case Branch(set_, selections) => (if set_.Some? then At(0, Places(set_.value)) else []) + PlacesAmong(selections, 1)
  }

  function PlacesAmong(nodes: seq<Node>, from: nat): seq<seq<nat>>
    decreases nodes, 0
  {
    if nodes == [] then [] else At(from, Places(nodes[0])) + PlacesAmong(nodes[1..], from + 1)
  }

  ghost predicate InOrder(places: seq<seq<nat>>, from: nat) {
    && (forall i | 0 <= i < |places| :: places[i] != [] && places[i][0] >= from)
    && (forall i, j | 0 <= i < j < |places| :: Precedes(places[i], places[j]))
  }

  lemma PutInFront(k: nat, first: seq<seq<nat>>, later: seq<seq<nat>>)
    requires (forall i, j | 0 <= i < j < |first| :: Precedes(first[i], first[j])) && InOrder(later, k + 1)
    ensures InOrder(At(k, first) + later, k)
  {
    var all := At(k, first) + later;
    forall i, j | 0 <= i < j < |all| ensures Precedes(all[i], all[j]) {
      if j < |first| {
        assert all[i][1..] == first[i] && all[j][1..] == first[j];
      }
    }
  }

  lemma {:induction false} PlacesInOrder(node: Node)
    ensures forall i, j | 0 <= i < j < |Places(node)| :: Precedes(Places(node)[i], Places(node)[j])
    decreases node, 1
  {
    match node
    case Spread(_) =>
    case Branch(set_, selections) =>
      PlacesAmongInOrder(selections, 1);
      if set_.Some? {
        PlacesInOrder(set_.value);
        PutInFront(0, Places(set_.value), PlacesAmong(selections, 1));
      }
  }

  lemma {:induction false} PlacesAmongInOrder(nodes: seq<Node>, from: nat)
    ensures InOrder(PlacesAmong(nodes, from), from)
    decreases nodes, 0
  {
    if nodes != [] {
      PlacesInOrder(nodes[0]);
      PlacesAmongInOrder(nodes[1..], from + 1);
      PutInFront(from, Places(nodes[0]), PlacesAmong(nodes[1..], from + 1));
    }
  }

  lemma {:induction false} PlacesHold(node: Node)
    ensures |Places(node)| == |Occurrences(node)|
    ensures forall i | 0 <= i < |Places(node)| :: SpreadAt(node, Places(node)[i], Occurrences(node)[i])
    decreases node, 1
  {
    match node
    case Spread(_) =>
    case Branch(set_, selections) =>
      PlacesAmongHold(selections, 1);
      if set_.Some? {
        PlacesHold(set_.value);
        forall i | 0 <= i < |Places(set_.value)| ensures SpreadAt(node, [0] + Places(set_.value)[i], Occurrences(set_.value)[i]) {
          assert ([0] + Places(set_.value)[i])[1..] == Places(set_.value)[i];
        }
      }
  }

  lemma {:induction false} PlacesAmongHold(nodes: seq<Node>, from: nat)
    ensures |PlacesAmong(nodes, from)| == |OccurrencesOfAll(nodes)|
    ensures forall i | 0 <= i < |PlacesAmong(nodes, from)| ::
              SpreadAmong(nodes, from, PlacesAmong(nodes, from)[i], OccurrencesOfAll(nodes)[i])
    decreases nodes, 0
  {
    if nodes != [] {
      PlacesHold(nodes[0]);
      PlacesAmongHold(nodes[1..], from + 1);
      var head, all := |Places(nodes[0])|, PlacesAmong(nodes, from);
      forall i | 0 <= i < |all| ensures SpreadAmong(nodes, from, all[i], OccurrencesOfAll(nodes)[i]) {
        if i < head {
          assert all[i][1..] == Places(nodes[0])[i];
        } else {
          assert SpreadAmong(nodes[1..], from + 1, all[i], OccurrencesOfAll(nodes)[i]);
        }
      }
    }
  }

  lemma {:induction false} PlacesAreAll(node: Node, place: seq<nat>, name: string)
    requires SpreadAt(node, place, name)
    ensures place in Places(node)
    decreases node, 1
  {
    match node
    case Spread(_) =>
    case Branch(set_, selections) =>
      if place[0] == 0 {
        PlacesAreAll(set_.value, place[1..], name);
        InFront(0, Places(set_.value), place);
      } else {
        PlacesAmongAreAll(selections, 1, place, name);
      }
  }

  lemma {:induction false} PlacesAmongAreAll(nodes: seq<Node>, from: nat, place: seq<nat>, name: string)
    requires SpreadAmong(nodes, from, place, name)
    ensures place in PlacesAmong(nodes, from)
    decreases nodes, 0
  {
    if place[0] == from {
      PlacesAreAll(nodes[0], place[1..], name);
      InFront(from, Places(nodes[0]), place);
    } else {
      PlacesAmongAreAll(nodes[1..], from + 1, place, name);
    }
  }

  lemma InFront(k: nat, places: seq<seq<nat>>, place: seq<nat>)
    requires place != [] && place[0] == k && place[1..] in places
    ensures place in At(k, places)
  {
    var i :| 0 <= i < |places| && places[i] == place[1..];
    assert At(k, places)[i] == [k] + place[1..] == place;
  }

  /** The occurrences are the spreads of the tree, each place once, in document order. */
  lemma OccurrencesAreTheSpreads(node: Node)
    ensures |Places(node)| == |Occurrences(node)|
    ensures forall i | 0 <= i < |Places(node)| :: SpreadAt(node, Places(node)[i], Occurrences(node)[i])
    ensures forall place, name | SpreadAt(node, place, name) :: place in Places(node)
    ensures forall i, j | 0 <= i < j < |Places(node)| :: Precedes(Places(node)[i], Places(node)[j])
  {
    PlacesHold(node);
    PlacesInOrder(node);
    forall place, name | SpreadAt(node, place, name) ensures place in Places(node) {
      PlacesAreAll(node, place, name);
    }
  }

  // ---------------------------------------------------------------- fragmentClosure

  /** A chain of spreads from a root to its last name; every name but the last is a defined fragment. */
  ghost predicate Chain(path: seq<string>, roots: seq<string>, fragments: Registry) {
    && path != [] && path[0] in roots
    && (forall i | 0 <= i < |path| - 1 :: path[i] in fragments)
    && (forall i | 0 <= i < |path| - 1 :: path[i + 1] in fragments[path[i]].spreads)
  }

  ghost predicate Reachable(name: string, roots: seq<string>, fragments: Registry) {
    exists path: seq<string> :: Chain(path, roots, fragments) && path[|path| - 1] == name
  }

  datatype Closure = Names(names: seq<string>) | NotDefined(name: string) | NotIterable(name: string)

  lemma RootsAreReachable(roots: seq<string>, fragments: Registry)
    ensures forall x | x in roots :: Reachable(x, roots, fragments)
  {
    forall x | x in roots ensures Reachable(x, roots, fragments) {
      assert Chain([x], roots, fragments);
      assert [x][|[x]| - 1] == x;
    }
  }

  lemma SpreadsAreReachable(name: string, roots: seq<string>, fragments: Registry)
    requires Reachable(name, roots, fragments) && name in fragments
    ensures forall x | x in fragments[name].spreads :: Reachable(x, roots, fragments)
  {
    var path :| Chain(path, roots, fragments) && path[|path| - 1] == name;
    forall x | x in fragments[name].spreads ensures Reachable(x, roots, fragments) {
      var longer := path + [x];
      assert Chain(longer, roots, fragments);
      assert longer[|longer| - 1] == x;
    }
  }

  lemma {:induction false} ClosedSetsHoldChains(seen: seq<string>, path: seq<string>, roots: seq<string>, fragments: Registry)
    requires Chain(path, roots, fragments)
    requires forall x | x in roots :: x in seen
    requires forall x | x in seen :: x in fragments && forall y | y in fragments[x].spreads :: y in seen
    ensures path[|path| - 1] in seen
    decreases |path|
  {
    if |path| > 1 {
      var shorter := path[..|path| - 1];
      ClosedSetsHoldChains(seen, shorter, roots, fragments);
      assert path[|path| - 2] == shorter[|shorter| - 1];
      assert path[(|path| - 2) + 1] in fragments[path[|path| - 2]].spreads;
    }
  }

  /** What the worklist has established: seen names are defined and closed under spreads up to the queue. */
  ghost predicate Explored(seen: seq<string>, queue: seq<string>, roots: seq<string>, fragments: Registry) {
    && Distinct(seen)
    && (forall x | x in seen :: x in fragments && Reachable(x, roots, fragments))
    && (forall x | x in queue :: Reachable(x, roots, fragments))
    && (forall x | x in roots :: x in seen || x in queue)
    && (forall x | x in seen :: x in fragments && forall y | y in fragments[x].spreads :: y in seen || y in queue)
  }

  lemma SkipSeen(seen: seq<string>, queue: seq<string>, roots: seq<string>, fragments: Registry)
    requires Explored(seen, queue, roots, fragments) && queue != [] && queue[0] in seen
    ensures Explored(seen, queue[1..], roots, fragments)
  {
  }

  lemma VisitNew(seen: seq<string>, queue: seq<string>, roots: seq<string>, fragments: Registry)
    requires Explored(seen, queue, roots, fragments) && queue != []
    requires queue[0] in fragments && queue[0] !in seen
    ensures Explored(seen + [queue[0]], queue[1..] + fragments[queue[0]].spreads, roots, fragments)
  {
    var name, spreads := queue[0], fragments[queue[0]].spreads;
    SpreadsAreReachable(name, roots, fragments);
    var seen', queue' := seen + [name], queue[1..] + spreads;
    assert forall x :: x in queue <==> x == name || x in queue[1..];
    assert forall x :: x in queue' <==> x in queue[1..] || x in spreads;
    assert forall x :: x in seen' <==> x in seen || x == name;
  }

  lemma NothingQueuedIsAll(seen: seq<string>, roots: seq<string>, fragments: Registry)
    requires Explored(seen, [], roots, fragments)
    ensures forall x :: x in seen <==> Reachable(x, roots, fragments)
  {
    forall x | Reachable(x, roots, fragments) ensures x in seen {
      var path :| Chain(path, roots, fragments) && path[|path| - 1] == x;
      ClosedSetsHoldChains(seen, path, roots, fragments);
    }
  }

  /**
   The worklist. On any registry, cyclic ones included, it ends; it returns the names reachable from the
   operation's spreads, each once and nothing else, and it throws exactly when one of them is not defined.
   */
  method FragmentClosure(roots: seq<string>, fragments: Registry, inherited: set<string>) returns (r: Closure)
    ensures r.Names? <==> forall x :: Reachable(x, roots, fragments) ==> x in fragments
    ensures r.Names? ==> Distinct(r.names) && forall x :: x in r.names <==> Reachable(x, roots, fragments)
    ensures !r.Names? ==> Reachable(r.name, roots, fragments) && r.name !in fragments
    ensures r.NotDefined? ==> r.name !in inherited
    ensures r.NotIterable? ==> r.name in inherited
  {
    var seen: seq<string> := [];
    var queue := roots;
    ghost var left := fragments.Keys;
    RootsAreReachable(roots, fragments);
    while queue != []
      invariant Explored(seen, queue, roots, fragments)
      invariant forall x :: x in left <==> x in fragments && x !in seen
      decreases left, |queue|
    {
      var name := queue[0];
      if name in seen {
        SkipSeen(seen, queue, roots, fragments);
        queue := queue[1..];
        continue;
      }
      if name !in fragments {
        return if name in inherited then NotIterable(name) else NotDefined(name);
      }
      VisitNew(seen, queue, roots, fragments);
      seen := seen + [name];
      queue := queue[1..] + fragments[name].spreads;
      left := left - {name};
    }
    NothingQueuedIsAll(seen, roots, fragments);
    return Names(seen);
  }

  lemma {:induction false} ChainsEnterFromElsewhere(path: seq<string>, roots: seq<string>, fragments: Registry)
    requires Chain(path, roots, fragments)
    ensures var name := path[|path| - 1];
            name in roots ||
            exists other :: Reachable(other, roots, fragments) && other != name && other in fragments &&
                            name in fragments[other].spreads
    decreases |path|
  {
    var name := path[|path| - 1];
    if |path| > 1 {
      var shorter := path[..|path| - 1];
      var other := path[|path| - 2];
      assert Chain(shorter, roots, fragments) && shorter[|shorter| - 1] == other;
      assert path[(|path| - 2) + 1] in fragments[other].spreads;
      if other == name {
        ChainsEnterFromElsewhere(shorter, roots, fragments);
      } else {
        assert Reachable(other, roots, fragments);
      }
    }
  }

  // ---------------------------------------------------------------- the preset

  /** The fragment names of the documents, in order. */
  function NamesOf(definitions: seq<Definition>): seq<string>
    decreases |definitions|
  {
    if definitions == [] then []
    else
      var last := definitions[|definitions| - 1];
      NamesOf(definitions[..|definitions| - 1]) + (if last.FragmentDefinition? then [last.name] else [])
  }

  function AllNames(docs: seq<Document>): seq<string>
    decreases |docs|
  {
    if docs == [] then [] else AllNames(docs[..|docs| - 1]) + NamesOf(docs[|docs| - 1].definitions)
  }

  predicate Sound(names: seq<string>, inherited: set<string>) {
    Distinct(names) && forall x | x in names :: x !in inherited
  }

  lemma SoundExtends(names: seq<string>, name: string, inherited: set<string>)
    ensures Sound(names + [name], inherited) <==> Sound(names, inherited) && name !in names && name !in inherited
  {
    var more := names + [name];
    assert more[|names|] == name;
    assert forall x :: x in more <==> x in names || x == name;
    if Sound(more, inherited) {
      forall i, j | 0 <= i < j < |names| ensures names[i] != names[j] {
        assert more[i] != more[j];
      }
      forall i | 0 <= i < |names| ensures names[i] != name {
        assert more[i] != more[|names|];
      }
    }
  }

  lemma SoundPrefix(names: seq<string>, more: seq<string>, inherited: set<string>)
    requires Sound(names + more, inherited)
    ensures Sound(names, inherited)
  {
    forall i, j | 0 <= i < j < |names| ensures names[i] != names[j] {
      assert (names + more)[i] != (names + more)[j];
    }
    assert forall x | x in names :: x in names + more;
  }

  lemma {:induction false} DefinitionsGrow(definitions: seq<Definition>, j: nat)
    requires j <= |definitions|
    ensures exists rest :: NamesOf(definitions) == NamesOf(definitions[..j]) + rest
    decreases |definitions|
  {
    if j == |definitions| {
      assert definitions[..j] == definitions;
      assert NamesOf(definitions) == NamesOf(definitions[..j]) + [];
    } else {
      var before := definitions[..|definitions| - 1];
      DefinitionsGrow(before, j);
      assert before[..j] == definitions[..j];
      var rest :| NamesOf(before) == NamesOf(before[..j]) + rest;
      var last := definitions[|definitions| - 1];
      assert NamesOf(definitions) == NamesOf(definitions[..j]) + (rest + (if last.FragmentDefinition? then [last.name] else []));
    }
  }

  lemma {:induction false} NamesGrow(docs: seq<Document>, i: nat, j: nat)
    requires i < |docs| && j <= |docs[i].definitions|
    ensures exists rest :: AllNames(docs) == AllNames(docs[..i]) + NamesOf(docs[i].definitions[..j]) + rest
    decreases |docs|
  {
    var n := |docs| - 1;
    if i == n {
      DefinitionsGrow(docs[i].definitions, j);
      var rest :| NamesOf(docs[i].definitions) == NamesOf(docs[i].definitions[..j]) + rest;
      assert AllNames(docs) == AllNames(docs[..i]) + NamesOf(docs[i].definitions[..j]) + rest;
    } else {
      NamesGrow(docs[..n], i, j);
      assert docs[..n][..i] == docs[..i];
      var rest :| AllNames(docs[..n]) == AllNames(docs[..i]) + NamesOf(docs[i].definitions[..j]) + rest;
      assert AllNames(docs) == AllNames(docs[..i]) + NamesOf(docs[i].definitions[..j]) + (rest + NamesOf(docs[n].definitions));
    }
  }

  lemma TakenNamesSpoilTheWhole(docs: seq<Document>, i: nat, j: nat, inherited: set<string>)
    requires i < |docs| && j <= |docs[i].definitions|
    requires !Sound(AllNames(docs[..i]) + NamesOf(docs[i].definitions[..j]), inherited)
    ensures !Sound(AllNames(docs), inherited)
  {
    NamesGrow(docs, i, j);
    if Sound(AllNames(docs), inherited) {
      var names := AllNames(docs[..i]) + NamesOf(docs[i].definitions[..j]);
      var rest :| AllNames(docs) == names + rest;
      SoundPrefix(names, rest, inherited);
    }
  }

  ghost predicate Registered(doc: Document, n: nat, fragments: Registry)
    requires n <= |doc.definitions|
  {
    forall k | 0 <= k < n && doc.definitions[k].FragmentDefinition? ::
      && doc.definitions[k].name in fragments
      && fragments[doc.definitions[k].name] == Fragment(doc.location, doc.definitions, CollectSpreads(doc.definitions[k].node, []))
  }

  ghost predicate AllRegistered(docs: seq<Document>, fragments: Registry) {
    forall d | d in docs :: Registered(d, |d.definitions|, fragments)
  }

  lemma RegisteringKeeps(docs: seq<Document>, fragments: Registry, name: string, fragment: Fragment)
    requires AllRegistered(docs, fragments) && name !in fragments
    ensures AllRegistered(docs, fragments[name := fragment])
  {
  }

  lemma NamesOfMore(earlier: seq<string>, definitions: seq<Definition>, j: nat)
    requires j < |definitions|
    ensures var names, more := earlier + NamesOf(definitions[..j]), earlier + NamesOf(definitions[..j + 1]);
            if definitions[j].FragmentDefinition?
            then more == names + [definitions[j].name] && forall x :: x in more <==> x in names || x == definitions[j].name
            else more == names
  {
    assert definitions[..j + 1][..j] == definitions[..j];
  }

  lemma NamesOfMoreFiles(docs: seq<Document>, i: nat)
    requires i < |docs|
    ensures AllNames(docs[..i + 1]) == AllNames(docs[..i]) + NamesOf(docs[i].definitions)
    ensures docs[..i + 1] == docs[..i] + [docs[i]]
  {
    assert docs[..i + 1][..i] == docs[..i];
  }

  /** The files before the i-th and the first j definitions of that one are in the registry, no name taken twice. */
  ghost predicate Partly(docs: seq<Document>, i: nat, j: nat, fragments: Registry, inherited: set<string>)
    requires i < |docs| && j <= |docs[i].definitions|
  {
    var names := AllNames(docs[..i]) + NamesOf(docs[i].definitions[..j]);
    && Sound(names, inherited) && (forall x :: x in fragments <==> x in names)
    && AllRegistered(docs[..i], fragments) && Registered(docs[i], j, fragments)
  }

  function Registering(doc: Document, def: Definition, fragments: Registry): Registry {
    if def.FragmentDefinition?
    then fragments[def.name := Fragment(doc.location, doc.definitions, CollectSpreads(def.node, []))]
    else fragments
  }

  lemma PartlyGrows(docs: seq<Document>, i: nat, j: nat, fragments: Registry, inherited: set<string>)
    requires i < |docs| && j < |docs[i].definitions| && Partly(docs, i, j, fragments, inherited)
    ensures var def := docs[i].definitions[j];
            if def.FragmentDefinition? && (def.name in fragments || def.name in inherited)
            then !Sound(AllNames(docs), inherited)
            else Partly(docs, i, j + 1, Registering(docs[i], def, fragments), inherited)
  {
    var def := docs[i].definitions[j];
    var names := AllNames(docs[..i]) + NamesOf(docs[i].definitions[..j]);
    NamesOfMore(AllNames(docs[..i]), docs[i].definitions, j);
    if def.FragmentDefinition? {
      SoundExtends(names, def.name, inherited);
      if def.name in fragments || def.name in inherited {
        TakenNamesSpoilTheWhole(docs, i, j + 1, inherited);
      } else {
        RegisteringKeeps(docs[..i], fragments, def.name, Registering(docs[i], def, fragments)[def.name]);
      }
    }
  }

  /** The definitions of one file, added to a registry that holds the files before it. */
  method Register(docs: seq<Document>, i: nat, before: Registry, inherited: set<string>) returns (r: Option<Registry>)
    requires i < |docs|
    requires Sound(AllNames(docs[..i]), inherited)
    requires forall x :: x in before <==> x in AllNames(docs[..i])
    requires AllRegistered(docs[..i], before)
    ensures r.Some? ==>
      && Sound(AllNames(docs[..i + 1]), inherited)
      && (forall x :: x in r.value <==> x in AllNames(docs[..i + 1]))
      && AllRegistered(docs[..i + 1], r.value)
    ensures r.None? ==> !Sound(AllNames(docs), inherited)
  {
    var fragments := before;
    var doc := docs[i];
    assert AllNames(docs[..i]) + NamesOf(doc.definitions[..0]) == AllNames(docs[..i]);
    var j := 0;
    while j < |doc.definitions|
      invariant 0 <= j <= |doc.definitions|
      invariant Partly(docs, i, j, fragments, inherited)
    {
      var def := doc.definitions[j];
      PartlyGrows(docs, i, j, fragments, inherited);
      if def.FragmentDefinition? {
        if def.name in fragments || def.name in inherited {
          return None;
        }
        fragments := fragments[def.name := Fragment(doc.location, doc.definitions, CollectSpreads(def.node, []))];
      }
      j := j + 1;
    }
    assert doc.definitions[..j] == doc.definitions;
    NamesOfMoreFiles(docs, i);
    return Some(fragments);
  }

  /**
   The registry of every file. It can be built exactly when no fragment name occurs twice and none is a name
   the object inherits; then it holds every fragment, with the location and the spreads of its definition.
   */
  method BuildRegistry(docs: seq<Document>, inherited: set<string>) returns (r: Option<Registry>)
    ensures r.Some? <==> Sound(AllNames(docs), inherited)
    ensures r.Some? ==> (forall x :: x in r.value <==> x in AllNames(docs)) && AllRegistered(docs, r.value)
  {
    var fragments: Registry := map[];
    var i := 0;
    while i < |docs|
      invariant 0 <= i <= |docs|
      invariant Sound(AllNames(docs[..i]), inherited)
      invariant forall x :: x in fragments <==> x in AllNames(docs[..i])
      invariant AllRegistered(docs[..i], fragments)
    {
      var more := Register(docs, i, fragments, inherited);
      if more.None? {
        return None;
      }
      fragments := more.value;
      i := i + 1;
    }
    assert docs[..i] == docs;
    return Some(fragments);
  }

  // ---------------------------------------------------------------- one file, one definition

  /** The definitions a file contributes: operations and fragments. */
  function Contributed(definitions: seq<Definition>): nat
    decreases |definitions|
  {
    if definitions == [] then 0
    else Contributed(definitions[1..]) + (if definitions[0].OtherDefinition? then 0 else 1)
  }

  /** One generated file: its name and the fragments it may spread without emitting their types. */
  datatype Section = Section(filename: string, external: set<string>)

  /** The sections of all files; refused when a name is taken or when a file does not define exactly one thing. */
  method BuildSections(docs: seq<Document>, inherited: set<string>) returns (r: Option<seq<Section>>, fragments: Registry)
    ensures r.Some? <==> Sound(AllNames(docs), inherited) && forall d | d in docs :: Contributed(d.definitions) == 1
    ensures r.Some? ==> OnePerFile(docs, fragments)
    ensures r.Some? ==> |r.value| == |docs| && forall i | 0 <= i < |docs| ::
              && r.value[i].filename == docs[i].location + ".ts"
              && forall x :: x in r.value[i].external <==> x in fragments && fragments[x].location != docs[i].location
  {
    fragments := map[];
    var registry := BuildRegistry(docs, inherited);
    if registry.None? {
      return None, fragments;
    }
    fragments := registry.value;
    var outputs: seq<Section> := [];
    for i := 0 to |docs|
      invariant |outputs| == i
      invariant forall k | 0 <= k < i :: Contributed(docs[k].definitions) == 1
      invariant forall k | 0 <= k < i ::
        && outputs[k].filename == docs[k].location + ".ts"
        && forall x :: x in outputs[k].external <==> x in fragments && fragments[x].location != docs[k].location
    {
      if Contributed(docs[i].definitions) != 1 {
        return None, fragments;
      }
      var external := set x | x in fragments && fragments[x].location != docs[i].location;
      outputs := outputs + [Section(docs[i].location + ".ts", external)];
    }
    return Some(outputs), fragments;
  }

  lemma {:induction false} NamedInADefinition(definitions: seq<Definition>, x: string)
    ensures x in NamesOf(definitions) <==> exists k :: 0 <= k < |definitions| && definitions[k].FragmentDefinition? && definitions[k].name == x
    decreases |definitions|
  {
    if definitions != [] {
      var n := |definitions| - 1;
      NamedInADefinition(definitions[..n], x);
      if x in NamesOf(definitions[..n]) {
        var k :| 0 <= k < n && definitions[..n][k].FragmentDefinition? && definitions[..n][k].name == x;
        assert definitions[k].FragmentDefinition? && definitions[k].name == x;
      }
    }
  }

  lemma {:induction false} NamedInAFile(docs: seq<Document>, x: string) returns (d: nat)
    requires x in AllNames(docs)
    ensures d < |docs| && x in NamesOf(docs[d].definitions)
    decreases |docs|
  {
    var n := |docs| - 1;
    if x in NamesOf(docs[n].definitions) {
      d := n;
    } else {
      d := NamedInAFile(docs[..n], x);
    }
  }

  lemma NamesHaveTheirFile(doc: Document, fragments: Registry, x: string)
    requires Registered(doc, |doc.definitions|, fragments) && x in NamesOf(doc.definitions)
    ensures x in fragments && fragments[x].location == doc.location
  {
    NamedInADefinition(doc.definitions, x);
    var k :| 0 <= k < |doc.definitions| && doc.definitions[k].FragmentDefinition? && doc.definitions[k].name == x;
  }

  /**
   When no two files share a path, a file's external fragments are exactly the fragments of the other files:
   the types of each fragment are emitted once, by the file that defines it, and are known to all the others.
   */
  lemma ExternalsAreTheOthers(docs: seq<Document>, i: nat, fragments: Registry)
    requires AllRegistered(docs, fragments) && forall x :: x in fragments <==> x in AllNames(docs)
    requires i < |docs| && forall d | 0 <= d < |docs| && d != i :: docs[d].location != docs[i].location
    ensures forall x :: x in fragments && fragments[x].location != docs[i].location <==>
              x in AllNames(docs) && x !in NamesOf(docs[i].definitions)
  {
    forall x | x in AllNames(docs)
      ensures fragments[x].location != docs[i].location <==> x !in NamesOf(docs[i].definitions)
    {
      var d := NamedInAFile(docs, x);
      NamesHaveTheirFile(docs[d], fragments, x);
      if x in NamesOf(docs[i].definitions) {
        NamesHaveTheirFile(docs[i], fragments, x);
      }
    }
  }

  // ---------------------------------------------------------------- the emitted document

  /** The operations and fragments of a document; a file may hold definitions of another kind beside its one. */
  function Executable(definitions: seq<Definition>): seq<Definition>
    decreases |definitions|
  {
    if definitions == [] then []
    else (if definitions[0].OtherDefinition? then [] else [definitions[0]]) + Executable(definitions[1..])
  }

  lemma {:induction false} ContributedIsExecutable(definitions: seq<Definition>)
    ensures |Executable(definitions)| == Contributed(definitions)
    ensures forall d :: d in Executable(definitions) <==> d in definitions && !d.OtherDefinition?
    decreases |definitions|
  {
    if definitions != [] {
      ContributedIsExecutable(definitions[1..]);
      assert forall d :: d in definitions <==> d == definitions[0] || d in definitions[1..];
    }
  }

  lemma {:induction false} ExecutableConcat(a: seq<Definition>, b: seq<Definition>)
    ensures Executable(a + b) == Executable(a) + Executable(b)
    decreases |a|
  {
    if a == [] {
      assert a + b == b;
    } else {
      assert (a + b)[1..] == a[1..] + b;
      ExecutableConcat(a[1..], b);
    }
  }

  /** The sources operationCode appends: for each name of the closure the whole file of its fragment. */
  function Sources(names: seq<string>, fragments: Registry): seq<Definition>
    requires forall x | x in names :: x in fragments
  {
    if names == [] then [] else fragments[names[0]].source + Sources(names[1..], fragments)
  }

  /** The document operationCode prints. */
  function Emitted(operation: Definition, names: seq<string>, fragments: Registry): seq<Definition>
    requires forall x | x in names :: x in fragments
  {
    [operation] + Sources(names, fragments)
  }

  /** The registry of files that define one thing each. */
  ghost predicate OnePerFile(docs: seq<Document>, fragments: Registry) {
    && AllRegistered(docs, fragments) && (forall x :: x in fragments <==> x in AllNames(docs))
    && (forall d | d in docs :: Contributed(d.definitions) == 1)
  }

  lemma OneExecutable(definitions: seq<Definition>, k: nat)
    requires Contributed(definitions) == 1 && k < |definitions| && !definitions[k].OtherDefinition?
    ensures Executable(definitions) == [definitions[k]]
  {
    ContributedIsExecutable(definitions);
    assert definitions[k] in Executable(definitions);
  }

  /** Then a fragment's source defines that fragment and nothing else that executes. */
  lemma SourceIsItsFragment(docs: seq<Document>, fragments: Registry, x: string) returns (node: Node)
    requires OnePerFile(docs, fragments) && x in fragments
    ensures Executable(fragments[x].source) == [FragmentDefinition(x, node)]
    ensures fragments[x].spreads == CollectSpreads(node, [])
  {
    var d := NamedInAFile(docs, x);
    var doc := docs[d];
    NamedInADefinition(doc.definitions, x);
    var k :| 0 <= k < |doc.definitions| && doc.definitions[k].FragmentDefinition? && doc.definitions[k].name == x;
    node := doc.definitions[k].node;
    assert doc in docs && Registered(doc, |doc.definitions|, fragments);
    OneExecutable(doc.definitions, k);
  }

  /** One definition per name of the closure, in its order, each the registered one. */
  ghost predicate Defines(definitions: seq<Definition>, names: seq<string>, fragments: Registry) {
    && |definitions| == |names|
    && forall i | 0 <= i < |names| ::
         && definitions[i].FragmentDefinition? && definitions[i].name == names[i]
         && names[i] in fragments && fragments[names[i]].spreads == CollectSpreads(definitions[i].node, [])
  }

  lemma {:induction false} SourcesDefineTheNames(docs: seq<Document>, fragments: Registry, names: seq<string>)
    requires OnePerFile(docs, fragments) && forall x | x in names :: x in fragments
    ensures Defines(Executable(Sources(names, fragments)), names, fragments)
    decreases |names|
  {
    if names != [] {
      var node := SourceIsItsFragment(docs, fragments, names[0]);
      SourcesDefineTheNames(docs, fragments, names[1..]);
      ExecutableConcat(fragments[names[0]].source, Sources(names[1..], fragments));
      var rest := Executable(Sources(names[1..], fragments));
      assert Executable(Sources(names, fragments)) == [FragmentDefinition(names[0], node)] + rest;
    }
  }

  /** What a document's definitions have to meet: sections 5.5.1.1, 5.5.1.4 and 5.5.2.1 of the specification. */
  ghost predicate FragmentNamesAreUnique(e: seq<Definition>) {
    forall i, j | 0 <= i < j < |e| && e[i].FragmentDefinition? && e[j].FragmentDefinition? :: e[i].name != e[j].name
  }

  ghost predicate FragmentsAreUsed(e: seq<Definition>) {
    forall i: nat | i < |e| && e[i].FragmentDefinition? :: SpreadInAnother(e, i)
  }

  ghost predicate SpreadsAreDefined(e: seq<Definition>) {
    forall i, x | 0 <= i < |e| && !e[i].OtherDefinition? && x in Occurrences(e[i].node) ::
      exists j :: 0 <= j < |e| && e[j].FragmentDefinition? && e[j].name == x
  }

  lemma SpreadsOfDefinitions(rest: seq<Definition>, names: seq<string>, fragments: Registry, i: nat)
    requires Defines(rest, names, fragments) && i < |names|
    ensures forall x :: x in Occurrences(rest[i].node) <==> x in fragments[names[i]].spreads
  {
    CollectedExactly(rest[i].node);
  }

  /** What spreads a reachable name, other than itself: the operation (None) or another reachable fragment. */
  lemma SpreadBy(name: string, roots: seq<string>, fragments: Registry) returns (spreader: Option<string>)
    requires Reachable(name, roots, fragments)
    ensures spreader.None? ==> name in roots
    ensures spreader.Some? ==>
              && Reachable(spreader.value, roots, fragments) && spreader.value != name
              && spreader.value in fragments && name in fragments[spreader.value].spreads
  {
    if name in roots {
      return None;
    }
    var path :| Chain(path, roots, fragments) && path[|path| - 1] == name;
    ChainsEnterFromElsewhere(path, roots, fragments);
    var other :| Reachable(other, roots, fragments) && other != name && other in fragments && name in fragments[other].spreads;
    return Some(other);
  }

  /** The names are those reachable from the operation, each once. */
  ghost predicate ClosureOf(op: Node, names: seq<string>, fragments: Registry) {
    Distinct(names) && forall x :: x in names <==> Reachable(x, CollectSpreads(op, []), fragments)
  }

  /** Where a fragment of the closure is spread, other than in itself: 0 is the operation, k + 1 the k-th name. */
  lemma UsedElsewhere(op: Node, names: seq<string>, rest: seq<Definition>, fragments: Registry, i: nat) returns (j: nat)
    requires Defines(rest, names, fragments) && ClosureOf(op, names, fragments) && i < |names|
    ensures j <= |names| && j != i + 1
    ensures names[i] in Occurrences(if j == 0 then op else rest[j - 1].node)
  {
    assert names[i] in names;
    var spreader := SpreadBy(names[i], CollectSpreads(op, []), fragments);
    if spreader.None? {
      CollectedExactly(op);
      j := 0;
    } else {
      var k :| 0 <= k < |names| && names[k] == spreader.value;
      SpreadsOfDefinitions(rest, names, fragments, k);
      j := k + 1;
    }
  }

  /** The i-th definition is spread by another one of the document. */
  ghost predicate SpreadInAnother(e: seq<Definition>, i: nat)
    requires i < |e| && e[i].FragmentDefinition?
  {
    exists j :: 0 <= j < |e| && j != i && !e[j].OtherDefinition? && e[i].name in Occurrences(e[j].node)
  }

  lemma SpreadFound(op: Node, names: seq<string>, rest: seq<Definition>, fragments: Registry, i: nat, j: nat)
    requires Defines(rest, names, fragments) && i < |names| && j <= |names| && j != i + 1
    requires names[i] in Occurrences(if j == 0 then op else rest[j - 1].node)
    ensures SpreadInAnother([OperationDefinition(op)] + rest, i + 1)
  {
    var e := [OperationDefinition(op)] + rest;
    assert e[j] == if j == 0 then OperationDefinition(op) else rest[j - 1];
    assert e[i + 1] == rest[i] && e[i + 1].name == names[i];
  }

  lemma EmittedFragmentIsUsed(op: Node, names: seq<string>, rest: seq<Definition>, fragments: Registry, i: nat)
    requires Defines(rest, names, fragments) && ClosureOf(op, names, fragments) && i < |names|
    ensures SpreadInAnother([OperationDefinition(op)] + rest, i + 1)
  {
    var j := UsedElsewhere(op, names, rest, fragments, i);
    SpreadFound(op, names, rest, fragments, i, j);
  }

  lemma EmittedFragmentsAreUsed(op: Node, names: seq<string>, rest: seq<Definition>, fragments: Registry)
    requires Defines(rest, names, fragments) && ClosureOf(op, names, fragments)
    ensures FragmentsAreUsed([OperationDefinition(op)] + rest)
  {
    var e := [OperationDefinition(op)] + rest;
    forall i: nat | i < |e| && e[i].FragmentDefinition? ensures SpreadInAnother(e, i) {
      EmittedFragmentIsUsed(op, names, rest, fragments, i - 1);
    }
  }

  /** The closure holds the operation's spreads and those of its own fragments. */
  ghost predicate SpreadClosed(names: seq<string>, roots: seq<string>, fragments: Registry) {
    && (forall x | x in roots :: x in names)
    && (forall x | x in names :: x in fragments && forall y | y in fragments[x].spreads :: y in names)
  }

  lemma ReachableIsSpreadClosed(names: seq<string>, roots: seq<string>, fragments: Registry)
    requires forall x | x in names :: x in fragments
    requires forall x :: x in names <==> Reachable(x, roots, fragments)
    ensures SpreadClosed(names, roots, fragments)
  {
    RootsAreReachable(roots, fragments);
    forall x, y | x in names && y in fragments[x].spreads ensures y in names {
      SpreadsAreReachable(x, roots, fragments);
    }
  }

  lemma EmittedSpreadsAreDefined(op: Node, names: seq<string>, rest: seq<Definition>, fragments: Registry)
    requires Defines(rest, names, fragments) && SpreadClosed(names, CollectSpreads(op, []), fragments)
    ensures SpreadsAreDefined([OperationDefinition(op)] + rest)
  {
    var e := [OperationDefinition(op)] + rest;
    forall i, x | 0 <= i < |e| && !e[i].OtherDefinition? && x in Occurrences(e[i].node)
      ensures exists j :: 0 <= j < |e| && e[j].FragmentDefinition? && e[j].name == x
    {
      if i == 0 {
        CollectedExactly(op);
      } else {
        SpreadsOfDefinitions(rest, names, fragments, i - 1);
        assert names[i - 1] in names;
      }
      var k :| 0 <= k < |names| && names[k] == x;
      assert e[k + 1].name == x;
    }
  }

  lemma EmittedIsTheClosure(docs: seq<Document>, fragments: Registry, op: Definition, names: seq<string>)
    returns (rest: seq<Definition>)
    requires OnePerFile(docs, fragments) && op.OperationDefinition? && forall x | x in names :: x in fragments
    ensures Executable(Emitted(op, names, fragments)) == [op] + rest && Defines(rest, names, fragments)
  {
    rest := Executable(Sources(names, fragments));
    SourcesDefineTheNames(docs, fragments, names);
    ExecutableConcat([op], Sources(names, fragments));
    assert Executable([op]) == [op];
  }

  lemma EmittedNamesAreUnique(op: Node, names: seq<string>, rest: seq<Definition>, fragments: Registry)
    requires Defines(rest, names, fragments) && Distinct(names)
    ensures FragmentNamesAreUnique([OperationDefinition(op)] + rest)
  {
    var e := [OperationDefinition(op)] + rest;
    forall i, j | 0 <= i < j < |e| && e[i].FragmentDefinition? && e[j].FragmentDefinition? ensures e[i].name != e[j].name {
      assert e[i] == rest[i - 1] && e[j] == rest[j - 1] && names[i - 1] != names[j - 1];
    }
  }

  /**
   The emitted document, from what BuildSections accepts and FragmentClosure returns. It holds the operation and
   one definition per fragment of the closure, nothing else that executes; and it meets the GraphQL specification
   (October 2021): fragment names are unique (section 5.5.1.1), every fragment is spread by the operation or by
   another fragment of the document (section 5.5.1.4), and every spread in it names one of them (section 5.5.2.1).
   */
  lemma EmittedDocumentIsValid(docs: seq<Document>, fragments: Registry, op: Node, names: seq<string>)
    requires OnePerFile(docs, fragments)
    requires Distinct(names) && forall x | x in names :: x in fragments
    requires forall x :: x in names <==> Reachable(x, CollectSpreads(op, []), fragments)
    ensures var e := Executable(Emitted(OperationDefinition(op), names, fragments));
            && |e| == 1 + |names| && e[0] == OperationDefinition(op) && Defines(e[1..], names, fragments)
            && FragmentNamesAreUnique(e) && FragmentsAreUsed(e) && SpreadsAreDefined(e)
  {
    var rest := EmittedIsTheClosure(docs, fragments, OperationDefinition(op), names);
    EmittedNamesAreUnique(op, names, rest, fragments);
    EmittedFragmentsAreUsed(op, names, rest, fragments);
    ReachableIsSpreadClosed(names, CollectSpreads(op, []), fragments);
    EmittedSpreadsAreDefined(op, names, rest, fragments);
    assert ([OperationDefinition(op)] + rest)[1..] == rest;
  }
}
