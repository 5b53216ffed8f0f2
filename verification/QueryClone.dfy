/** Query builders and their clones: Where, Order, Limit, Offset, Unique, Select, ForUpdate, ForShare and
    Clone of backend/ent/account_query.go, with Go slices that share and grow their backing arrays. The nested
    builders of eager-loaded edges follow the same template and are modelled by the same class. */
module QueryClone {
  import opened Wrappers

  /** A Go slice: a backing array and the number of elements in use. Predicates and order terms are
      opaque functions in the source and numbers here. */
  datatype Slice = Slice(buf: array<int>, len: nat)

  /** append: it writes into the backing array when there is room and moves to a larger one otherwise. */
  method Append(s: Slice, xs: seq<int>) returns (r: Slice)
    requires s.len <= s.buf.Length
    modifies s.buf
    ensures r.len == s.len + |xs| && r.len <= r.buf.Length
    ensures r.buf == s.buf || fresh(r.buf)
    ensures r.buf[..r.len] == old(s.buf[..s.len]) + xs
  {
    ghost var before := s.buf[..s.len];
    if s.len + |xs| <= s.buf.Length {
      for i := 0 to |xs|
        invariant s.buf[..s.len + i] == before + xs[..i]
      {
        s.buf[s.len + i] := xs[i];
      }
      assert xs[..|xs|] == xs;
      return Slice(s.buf, s.len + |xs|);
    }
    var bigger := new int[2 * s.buf.Length + |xs|](i requires 0 <= i reads s.buf =>
      if i < s.len && i < s.buf.Length then s.buf[i] else if s.len <= i < s.len + |xs| then xs[i - s.len] else 0);
    assert bigger[..s.len + |xs|] == before + xs;
    return Slice(bigger, s.len + |xs|);
  }

  /** What a query asks for, as querySpec reads it from the builder. */
  datatype QuerySpec = QuerySpec(
    limit: Option<int>, offset: Option<int>, unique: Option<bool>, fields: seq<string>,
    predicates: seq<int>, order: seq<int>, inters: seq<int>, modifiers: seq<int>, edges: seq<Option<QuerySpec>>)

  class QueryContext {
    var limit: Option<int>
    var offset: Option<int>
    var unique: Option<bool>
    var fields: seq<string>

    constructor (limit: Option<int>, offset: Option<int>, unique: Option<bool>, fields: seq<string>)
      ensures this.limit == limit && this.offset == offset && this.unique == unique && this.fields == fields
    {
      this.limit, this.offset, this.unique, this.fields := limit, offset, unique, fields;
    }
  }

  class Query {
    var ctx: QueryContext
    var predicates: Slice
    var order: Slice
    const inters: seq<int>
    var modifiers: seq<int>
    var edges: seq<Query?>
    ghost var Repr: set<object>
    ghost var height: nat

    /** A builder without modifiers over a context, slices and nested builders that nobody else uses. */
    constructor (ctx: QueryContext, predicates: Slice, order: Slice, inters: seq<int>, edges: seq<Query?>,
                 ghost parts: set<object>, ghost specs: seq<Option<QuerySpec>>, ghost height: nat)
      requires {ctx, predicates.buf, order.buf} !! parts && predicates.buf != order.buf
      requires predicates.len <= predicates.buf.Length && order.len <= order.buf.Length
      requires ClonesOf(edges, parts, specs, height)
      ensures Valid() && Repr == {this, ctx, predicates.buf, order.buf} + parts && this.height == height
      ensures this.ctx == ctx && this.predicates == predicates && this.order == order && this.edges == edges
      ensures this.inters == inters && modifiers == []
    {
      this.ctx, this.predicates, this.order, this.edges := ctx, predicates, order, edges;
      this.inters, this.modifiers := inters, [];
      this.Repr, this.height := {this, ctx, predicates.buf, order.buf} + parts, height;
      new;
      hide Cloned;
      assert forall i :: 0 <= i < |edges| && edges[i] != null ==> OwnsEdge(edges[i]);
    }

    ghost predicate Valid()
      reads this, Repr
      ensures Valid() ==> this in Repr
      decreases height, 1
    {
      && this in Repr && {ctx, predicates.buf, order.buf} <= Repr && predicates.buf != order.buf
      && predicates.len <= predicates.buf.Length && order.len <= order.buf.Length
      && (forall i :: 0 <= i < |edges| && edges[i] != null ==> edges[i] in Repr && OwnsEdge(edges[i]))
      && (forall i, j :: 0 <= i < j < |edges| && edges[i] != null && edges[j] != null ==> edges[i].Repr !! edges[j].Repr)
    }

    ghost predicate OwnsEdge(e: Query)
      requires e in Repr
      reads this, Repr
      decreases height, 0
    {
      e.Repr <= Repr - {this, ctx, predicates.buf, order.buf} && e.height < height && e.Valid()
    }

    ghost function Spec(): QuerySpec
      requires Valid()
      reads this, Repr
      decreases height, 1
    {
      QuerySpec(ctx.limit, ctx.offset, ctx.unique, ctx.fields, predicates.buf[..predicates.len], order.buf[..order.len],
                inters, modifiers,
                seq(|edges|, i requires 0 <= i < |edges| && Valid() reads this, Repr => EdgeSpec(i)))
    }

    ghost function EdgeSpec(i: nat): Option<QuerySpec>
      requires Valid() && i < |edges|
      reads this, Repr
      decreases height, 0
    {
      if edges[i] == null then None else assert OwnsEdge(edges[i]); Some(edges[i].Spec())
    }

    method Where(ps: seq<int>)
      requires Valid()
      modifies Repr
      ensures Valid() && fresh(Repr - old(Repr)) && height == old(height)
      ensures Spec() == Edited(old(Spec()), AddPredicates(ps))
    {
      predicates := Append(predicates, ps);
      Repr := Repr + {predicates.buf};
      assert Spec().edges == old(Spec()).edges;
    }

    method Order(os: seq<int>)
      requires Valid()
      modifies Repr
      ensures Valid() && fresh(Repr - old(Repr)) && height == old(height)
      ensures Spec() == Edited(old(Spec()), AddOrder(os))
    {
      order := Append(order, os);
      Repr := Repr + {order.buf};
      assert Spec().edges == old(Spec()).edges;
    }

    /** Limit, Offset, Unique and Select write through the context pointer. */
    method SetContext(op: Op)
      requires Valid() && (op.SetLimit? || op.SetOffset? || op.SetUnique? || op.Select?)
      modifies Repr
      ensures Valid() && Repr == old(Repr) && height == old(height)
      ensures Spec() == Edited(old(Spec()), op)
      ensures ctx == old(ctx)
      ensures ctx.limit == (if op.SetLimit? then Some(op.n) else old(ctx.limit))
      ensures ctx.offset == (if op.SetOffset? then Some(op.n) else old(ctx.offset))
      ensures ctx.unique == (if op.SetUnique? then Some(op.b) else old(ctx.unique))
      ensures ctx.fields == old(ctx.fields) + if op.Select? then op.fields else []
    {
      match op {
        case SetLimit(n) => ctx.limit := Some(n);
        case SetOffset(n) => ctx.offset := Some(n);
        case SetUnique(b) => ctx.unique := Some(b);
        case Select(fields) => ctx.fields := ctx.fields + fields;
      }
      assert Spec().edges == old(Spec()).edges;
    }

    /** ForUpdate and ForShare: a modifier and, on Postgres, no de-duplication. */
    method Lock(modifier: int, postgres: bool)
      requires Valid()
      modifies Repr
      ensures Valid() && Repr == old(Repr) && height == old(height)
      ensures Spec() == Edited(old(Spec()), AddLock(modifier, postgres))
    {
      if postgres {
        ctx.unique := Some(false);
      }
      modifiers := modifiers + [modifier];
      assert Spec().edges == old(Spec()).edges;
    }

    /** A call on this builder, or on the nested builder that a path of edges leads to. */
    method EditAt(path: seq<nat>, op: Op)
      requires Valid()
      modifies Repr
      ensures Valid() && fresh(Repr - old(Repr)) && height == old(height)
      ensures Spec() == EditedAt(old(Spec()), path, op)
      decreases height
    {
      if path == [] {
        match op {
          case AddPredicates(ps) => Where(ps);
          case AddOrder(os) => Order(os);
          case AddLock(m, postgres) => Lock(m, postgres);
          case _ => SetContext(op);
        }
        return;
      }
      var i := path[0];
      if i < |edges| && edges[i] != null {
        EditEdge(i, path[1..], op);
      }
    }

    method EditEdge(i: nat, path: seq<nat>, op: Op)
      requires Valid() && i < |edges| && edges[i] != null
      modifies Repr
      ensures Valid() && fresh(Repr - old(Repr)) && height == old(height)
      ensures var s := old(Spec());
              s.edges[i].Some? && Spec() == s.(edges := s.edges[i := Some(EditedAt(s.edges[i].value, path, op))])
      decreases height, 0
    {
      hide EditedAt;
      ghost var s := Spec();
      var e := edges[i];
      assert OwnsEdge(e) && s.edges[i] == EdgeSpec(i) == Some(e.Spec());
      e.EditAt(path, op);
      Repr := Repr + e.Repr;
      forall j | 0 <= j < |edges| && edges[j] != null ensures edges[j] in Repr && OwnsEdge(edges[j]) {
        assert j != i ==> edges[j].Repr !! old(e.Repr);
      }
      assert Valid();
      forall j | 0 <= j < |edges| && j != i ensures EdgeSpec(j) == s.edges[j] {
        assert s.edges[j] == old(EdgeSpec(j));
      }
      assert Spec().edges == s.edges[i := Some(EditedAt(s.edges[i].value, path, op))];
    }

    /** The nested builders of a clone: each a clone of its own, and none shares anything with another. */
    method CloneEdges() returns (clones: seq<Query?>, ghost parts: set<object>)
      requires Valid()
      ensures fresh(parts) && ClonesOf(clones, parts, Spec().edges, height)
      decreases height, 0
    {
      hide ClonesOf, Cloned;
      clones, parts := [], {};
      ghost var specs := Spec().edges;
      NoClones(height);
      for i := 0 to |edges|
        invariant fresh(parts)
        invariant ClonesOf(clones, parts, specs[..i], height)
      {
        assert specs[..i + 1] == specs[..i] + [EdgeSpec(i)];
        if edges[i] == null {
          OneMore(clones, parts, specs[..i], height, null, None);
          assert parts + {} == parts;
          clones := clones + [null];
        } else {
          assert OwnsEdge(edges[i]);
          var e := edges[i].Clone();
          OneMore(clones, parts, specs[..i], height, e, Some(edges[i].Spec()));
          clones, parts := clones + [e], parts + e.Repr;
        }
      }
      assert specs[..|edges|] == specs;
    }

    /** Clone: fresh context, fresh slices, and clones of the nested builders. The modifiers are not
        copied. */
    method Clone() returns (c: Query)
      requires Valid()
      ensures c.Valid() && fresh(c.Repr) && c.height == height
      ensures c.Spec() == Cloned(Spec())
      decreases height, 1
    {
      hide ClonesOf, Cloned;
      ghost var spec := Spec();
      var clones, parts := CloneEdges();
      var newCtx := new QueryContext(ctx.limit, ctx.offset, ctx.unique, ctx.fields);
      var newPredicates := Copy(predicates);
      var newOrder := Copy(order);
      c := new Query(newCtx, newPredicates, newOrder, inters, clones, parts, spec.edges, height);
      c.ClonedSpec(spec, parts);
    }

    lemma ClonedSpec(spec: QuerySpec, parts: set<object>)
      requires Valid() && modifiers == [] && ClonesOf(edges, parts, spec.edges, height)
      requires ctx.limit == spec.limit && ctx.offset == spec.offset && ctx.unique == spec.unique && ctx.fields == spec.fields
      requires inters == spec.inters
      requires predicates.buf[..predicates.len] == spec.predicates && order.buf[..order.len] == spec.order
      ensures Spec() == Cloned(spec)
    {
      forall j | 0 <= j < |edges| ensures EdgeSpec(j) == ClonedEdge(spec.edges[j]) {
      }
      assert Spec().edges == Cloned(spec).edges;
    }
  }

  /** The clones are separate, stay within parts and have the specs of clones. */
  ghost predicate ClonesOf(clones: seq<Query?>, parts: set<object>, specs: seq<Option<QuerySpec>>, height: nat)
    reads parts
  {
    && |clones| == |specs|
    && (forall j :: 0 <= j < |clones| ==> (clones[j] == null <==> specs[j].None?))
    && (forall j :: 0 <= j < |clones| && clones[j] != null ==>
                      && clones[j] in parts && clones[j].Repr <= parts
                      && clones[j].Valid() && clones[j].height < height && clones[j].Spec() == Cloned(specs[j].value))
    && (forall j, k :: 0 <= j < k < |clones| && clones[j] != null && clones[k] != null ==> clones[j].Repr !! clones[k].Repr)
  }

  lemma NoClones(height: nat)
    ensures ClonesOf([], {}, [], height)
  {
  }

  lemma OneMore(clones: seq<Query?>, parts: set<object>, specs: seq<Option<QuerySpec>>, height: nat, e: Query?, spec: Option<QuerySpec>)
    requires ClonesOf(clones, parts, specs, height)
    requires e == null <==> spec.None?
    requires e != null ==> e.Valid() && e.Repr !! parts && e.height < height && e.Spec() == Cloned(spec.value)
    ensures ClonesOf(clones + [e], parts + (if e == null then {} else e.Repr), specs + [spec], height)
  {
    hide Cloned;
  }

  /** append([]T{}, s...) */
  method Copy(s: Slice) returns (r: Slice)
    requires s.len <= s.buf.Length
    ensures fresh(r.buf) && r.len == s.len <= r.buf.Length
    ensures r.buf[..r.len] == s.buf[..s.len]
  {
    var empty := new int[0];
    r := Append(Slice(empty, 0), s.buf[..s.len]);
  }

  /** A later call on a builder. */
  datatype Op =
    | AddPredicates(ps: seq<int>) | AddOrder(os: seq<int>) | AddLock(modifier: int, postgres: bool)
    | SetLimit(n: int) | SetOffset(n: int) | SetUnique(b: bool) | Select(fields: seq<string>)

  function Edited(s: QuerySpec, op: Op): QuerySpec {
    match op
    case AddPredicates(ps) => s.(predicates := s.predicates + ps)
    case AddOrder(os) => s.(order := s.order + os)
    case AddLock(m, postgres) =>
      s.(modifiers := s.modifiers + [m], unique := if postgres then Some(false) else s.unique)
    case SetLimit(n) => s.(limit := Some(n))
    case SetOffset(n) => s.(offset := Some(n))
    case SetUnique(b) => s.(unique := Some(b))
    case Select(fields) => s.(fields := s.fields + fields)
  }

  function EditedAt(s: QuerySpec, path: seq<nat>, op: Op): QuerySpec
    decreases |path|
  {
    if path == [] then Edited(s, op)
    else if path[0] < |s.edges| && s.edges[path[0]].Some? then
      s.(edges := s.edges[path[0] := Some(EditedAt(s.edges[path[0]].value, path[1..], op))])
    else s
  }

  /** The spec of a clone: everything but the modifiers, all the way down. */
  ghost function Cloned(s: QuerySpec): QuerySpec
    decreases s, 1
  {
    s.(modifiers := [], edges := seq(|s.edges|, i requires 0 <= i < |s.edges| => ClonedEdge(s.edges[i])))
  }

  ghost function ClonedEdge(e: Option<QuerySpec>): Option<QuerySpec>
    decreases e, 0
  {
    if e.None? then None else Some(Cloned(e.value))
  }

  // ----- isolation -----

  /** A call on the clone or on the original, at some nested builder. */
  datatype Edit = Edit(onClone: bool, path: seq<nat>, op: Op)

  /** The effect on a spec of those edits that are made on its side. */
  function EditAll(s: QuerySpec, edits: seq<Edit>, onClone: bool): QuerySpec {
    if edits == [] then s
    else
      var n := |edits| - 1;
      var before := EditAll(s, edits[..n], onClone);
      if edits[n].onClone == onClone then EditedAt(before, edits[n].path, edits[n].op) else before
  }

  /** Isolation: after cloning, any interleaving of calls on the clone, on the original and on their
      nested builders leaves each of the two as if the other had never been touched. */
  method CloneAndEdit(q: Query, edits: seq<Edit>) returns (c: Query)
    requires q.Valid()
    modifies q.Repr
    ensures q.Valid() && c.Valid() && q.Repr !! c.Repr
    ensures q.Spec() == EditAll(old(q.Spec()), edits, false)
    ensures c.Spec() == EditAll(Cloned(old(q.Spec())), edits, true)
  {
    hide EditedAt, Cloned, Query.Spec;
    ghost var s := q.Spec();
    c := q.Clone();
    for i := 0 to |edits|
      invariant q.Valid() && c.Valid() && q.Repr !! c.Repr && fresh(q.Repr - old(q.Repr)) && fresh(c.Repr)
      invariant q.Spec() == EditAll(s, edits[..i], false)
      invariant c.Spec() == EditAll(Cloned(s), edits[..i], true)
    {
      assert edits[..i + 1][..i] == edits[..i];
      if edits[i].onClone {
        c.EditAt(edits[i].path, edits[i].op);
      } else {
        q.EditAt(edits[i].path, edits[i].op);
      }
    }
    assert edits[..|edits|] == edits;
  }

  ghost predicate NoModifiers(s: QuerySpec) {
    s.modifiers == [] && forall i :: 0 <= i < |s.edges| && s.edges[i].Some? ==> NoModifiers(s.edges[i].value)
  }

  /** A clone asks for the same as the original if and only if neither the builder nor any nested builder
      has modifiers: Clone drops them. */
  lemma {:induction false} CloneAsksTheSame(s: QuerySpec)
    ensures Cloned(s) == s <==> NoModifiers(s)
  {
    forall i | 0 <= i < |s.edges| && s.edges[i].Some? ensures Cloned(s.edges[i].value) == s.edges[i].value <==> NoModifiers(s.edges[i].value) {
      CloneAsksTheSame(s.edges[i].value);
    }
    var edges := Cloned(s).edges;
    if NoModifiers(s) {
      forall i | 0 <= i < |s.edges| ensures edges[i] == s.edges[i] {
        assert edges[i] == ClonedEdge(s.edges[i]);
      }
    }
    if edges == s.edges {
      forall i | 0 <= i < |s.edges| && s.edges[i].Some? ensures NoModifiers(s.edges[i].value) {
        assert edges[i] == ClonedEdge(s.edges[i]);
      }
    }
  }

  /** A builder that locks its rows is not what its clone asks for. */
  lemma LockIsLost(s: QuerySpec, modifier: int, postgres: bool)
    ensures var locked := Edited(s, AddLock(modifier, postgres));
            Cloned(locked) != locked && Cloned(locked).modifiers == []
  {
  }
}
