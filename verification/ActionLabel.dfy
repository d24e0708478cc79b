/** internal/graph/audit_entry.go: the action an audit row and the denial counter carry. */
module ActionLabel {
  import opened Strings
  import opened Wrappers

  const MAX_ACTION_FIELDS := 8
  const PREFIX_DENIED := "denied:"

  datatype Operation = Query | Mutation

  predicate Introspection(name: string) {
    |name| >= 2 && name[0] == '_' && name[1] == '_'
  }

  /** The distinct fields a selection names, introspection left out. */
  ghost function Kept(selected: seq<string>): set<string> {
    set x | x in selected && !Introspection(x)
  }

  function Min(a: nat, b: nat): nat {
    if a <= b then a else b
  }

  /** The n smallest names of a set, in order. */
  ghost predicate Smallest(names: seq<string>, n: nat, from: set<string>) {
    && Increasing(names)
    && |names| == Min(n, |from|)
    && (forall x | x in names :: x in from)
    && (forall x | x in from :: x in names || forall y | y in names :: Below(y, x))
  }

  // ---------------------------------------------------------------- slices.Sort

  function Insert(x: string, sorted: seq<string>): seq<string> {
    if sorted == [] || !Below(sorted[0], x) then [x] + sorted else [sorted[0]] + Insert(x, sorted[1..])
  }

  function Sorted(names: seq<string>): seq<string> {
    if names == [] then [] else Insert(names[0], Sorted(names[1..]))
  }

  lemma {:induction false} InsertKeepsIncreasing(x: string, sorted: seq<string>)
    requires Increasing(sorted) && x !in sorted
    ensures Increasing(Insert(x, sorted)) && |Insert(x, sorted)| == |sorted| + 1
    ensures forall y :: y in Insert(x, sorted) <==> y == x || y in sorted
  {
    if sorted != [] {
      BelowIsAnOrder(sorted[0], x, x);
      if Below(sorted[0], x) {
        InsertKeepsIncreasing(x, sorted[1..]);
        var rest := Insert(x, sorted[1..]);
        forall y | y in rest ensures Below(sorted[0], y) {
        }
      } else {
        forall y | y in sorted ensures Below(x, y) {
          BelowIsAnOrder(x, sorted[0], y);
        }
      }
    }
  }

  predicate Distinct(names: seq<string>) {
    forall i, j | 0 <= i < j < |names| :: names[i] != names[j]
  }

  lemma {:induction false} SortedIsIncreasing(names: seq<string>)
    requires Distinct(names)
    ensures Increasing(Sorted(names)) && |Sorted(names)| == |names|
    ensures forall y :: y in Sorted(names) <==> y in names
  {
    if names != [] {
      SortedIsIncreasing(names[1..]);
      InsertKeepsIncreasing(names[0], Sorted(names[1..]));
    }
  }

  lemma {:induction false} DistinctNamesCount(names: seq<string>, from: set<string>)
    requires Distinct(names) && forall x :: x in names <==> x in from
    ensures |names| == |from|
  {
    if names != [] {
      forall x ensures x in names[1..] <==> x in from - {names[0]} {
      }
      DistinctNamesCount(names[1..], from - {names[0]});
    } else {
      assert from == {};
    }
  }

  lemma FirstOfIncreasing(sorted: seq<string>, n: nat, from: set<string>)
    requires Increasing(sorted) && |sorted| == |from| && n <= |sorted|
    requires forall x :: x in sorted <==> x in from
    ensures Smallest(sorted[..n], n, from)
  {
  }

  // ---------------------------------------------------------------- the label

  /** None when there is no field context. */
  method SelectedFieldNames(selected: Option<seq<string>>) returns (names: seq<string>)
    ensures names == [] || selected.Some?
    ensures selected.Some? ==> Smallest(names, 8, set x | x in selected.value && !("__" <= x))
  {
    names := [];
    if selected.None? {
      return;
    }
    var fields := selected.value;
    var seen: set<string> := {};
    for i := 0 to |fields|
      invariant Distinct(names)
      invariant forall x :: x in names <==> x in seen
      invariant forall x :: x in names <==> x in fields[..i] && !Introspection(x)
    {
      var name := fields[i];
      if Introspection(name) || name in seen {
        continue;
      }
      seen := seen + {name};
      names := names + [name];
    }
    assert fields[..|fields|] == fields;
    DistinctNamesCount(names, Kept(fields));
    SortedIsIncreasing(names);
    names := Sorted(names);
    assert names[..|names|] == names;
    FirstOfIncreasing(names, Min(MAX_ACTION_FIELDS, |names|), Kept(fields));
    assert Kept(fields) == set x | x in fields && !("__" <= x);
    if |names| > MAX_ACTION_FIELDS {
      names := names[..MAX_ACTION_FIELDS];
    }
  }

  lemma RestIsSmallest(names: seq<string>, n: nat, from: set<string>)
    requires Smallest(names, n, from) && names != []
    ensures n > 0 && names[0] in from
    ensures forall x | x in from :: x == names[0] || Below(names[0], x)
    ensures Smallest(names[1..], n - 1, from - {names[0]})
  {
    BelowIsAnOrder(names[0], names[0], names[0]);
    forall x | x in names[1..] ensures x in from - {names[0]} {
      assert Below(names[0], x);
    }
  }

  lemma {:induction false} SmallestIsUnique(a: seq<string>, b: seq<string>, n: nat, from: set<string>)
    requires Smallest(a, n, from) && Smallest(b, n, from)
    ensures a == b
    decreases |a|
  {
    if a != [] {
      RestIsSmallest(a, n, from);
      RestIsSmallest(b, n, from);
      BelowIsAnOrder(a[0], b[0], a[0]);
      assert a[0] == b[0];
      SmallestIsUnique(a[1..], b[1..], n - 1, from - {a[0]});
      assert a == [a[0]] + a[1..] == [b[0]] + b[1..] == b;
    }
  }

  /**
   The label is a canonical form: it depends on the set of admin fields alone, so permuting a selection,
   repeating fields under aliases or adding introspection fields leaves it as it is.
   */
  lemma LabelDependsOnTheSet(s: seq<string>, a: seq<string>, t: seq<string>, b: seq<string>)
    requires forall x | !Introspection(x) :: x in s <==> x in t
    requires Smallest(a, 8, Kept(s)) && Smallest(b, 8, Kept(t))
    ensures a == b
  {
    assert Kept(s) == Kept(t);
    SmallestIsUnique(a, b, 8, Kept(s));
  }

  function Kind(operation: Operation): string {
    if operation.Mutation? then "mutation" else "query"
  }

  function AdminAction(operation: Operation, fields: seq<string>): string {
    if fields == [] then Kind(operation) else Kind(operation) + ":" + Join(fields, ',')
  }

  /** Reading an action back: denied or not, the operation, the fields. */
  function ReadAction(action: string): (bool, Operation, seq<string>) {
    var denied := "denied:" <= action;
    var rest := if denied then action[7..] else action;
    var kind := if "mutation" <= rest then "mutation" else "query";
    (denied, if kind == "mutation" then Mutation else Query, if |rest| > |kind| then Split(rest[|kind| + 1..], ',') else [])
  }

  /** A GraphQL name (section 2.1.9 of the GraphQL specification, October 2021). */
  predicate IsName(name: string) {
    && name != "" && !('0' <= name[0] <= '9')
    && forall c | c in name :: c == '_' || 'a' <= c <= 'z' || 'A' <= c <= 'Z' || '0' <= c <= '9'
  }

  lemma LabelIsRecoverable(operation: Operation, fields: seq<string>)
    requires forall f | f in fields :: IsName(f)
    ensures ReadAction(AdminAction(operation, fields)) == (false, operation, fields)
  {
    var rest := AdminAction(operation, fields);
    assert rest[0] == Kind(operation)[0] && PREFIX_DENIED[0] == 'd';
    if fields != [] {
      assert rest[|Kind(operation)| + 1..] == Join(fields, ',');
      SplitUndoesJoin(fields, ',');
    }
  }

  lemma DenialIsRecoverable(rest: string)
    requires rest != "" && rest[0] != 'd'
    ensures ReadAction(PREFIX_DENIED + rest) == (true, ReadAction(rest).1, ReadAction(rest).2)
  {
    assert (PREFIX_DENIED + rest)[|PREFIX_DENIED|..] == rest;
    assert PREFIX_DENIED[0] == 'd';
  }

  /** Nothing is lost in the comma-joined action, because GraphQL names hold no comma. */
  lemma ActionIsRecoverable(denied: bool, operation: Operation, fields: seq<string>)
    requires forall f | f in fields :: IsName(f)
    ensures ReadAction((if denied then "denied:" else "") + AdminAction(operation, fields)) == (denied, operation, fields)
  {
    var rest := AdminAction(operation, fields);
    LabelIsRecoverable(operation, fields);
    if denied {
      assert rest[0] == Kind(operation)[0];
      DenialIsRecoverable(rest);
    } else {
      assert "" + rest == rest;
    }
  }
}
