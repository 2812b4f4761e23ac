/** What predicates and success conditions decide, in terms of the values on the ports. */
module Guards {
  import opened Json
  import opened Graph
  import opened Openings
  import opened RunModel
  import opened RunTheorems

  // ----- comparisons, written out

  /** `a` comes before `b`: after a common beginning, `a` ends or has the smaller character. */
  ghost predicate Before(a: string, b: string) {
    exists k :: BeforeAt(a, b, k)
  }

  ghost predicate BeforeAt(a: string, b: string, k: int) {
    0 <= k <= |a| && k < |b| && a[..k] == b[..k] && (k == |a| || a[k] < b[k])
  }

  lemma {:induction false} StringLessIsBefore(a: string, b: string)
    ensures StringLess(a, b) <==> Before(a, b)
  {
    if b == "" {
    } else if a == "" {
      assert BeforeAt(a, b, 0);
    } else if a[0] < b[0] {
      assert BeforeAt(a, b, 0);
    } else {
      StringLessIsBefore(a[1..], b[1..]);
      if Before(a, b) {
        var k :| BeforeAt(a, b, k);
        if k > 0 {
          assert a[..k][0] == b[..k][0];
          assert a[1..][..k - 1] == a[..k][1..] && b[1..][..k - 1] == b[..k][1..];
          assert BeforeAt(a[1..], b[1..], k - 1);
        }
      }
      if a[0] == b[0] && Before(a[1..], b[1..]) {
        var k :| BeforeAt(a[1..], b[1..], k);
        assert a[..k + 1] == [a[0]] + a[1..][..k] && b[..k + 1] == [b[0]] + b[1..][..k];
        assert BeforeAt(a, b, k + 1);
      }
    }
  }

  /** Two numbers closer than the machine epsilon of 64-bit floating point, 2 to the power of -52. */
  ghost predicate Near(a: real, b: real) {
    (a - b) * 4503599627370496.0 < 1.0 && (b - a) * 4503599627370496.0 < 1.0
  }

  /** An integer or floating-point number as a real one. */
  ghost function NumberOf(v: Json): real
    requires v.Integer? || v.Float?
  {
    if v.Integer? then v.n as real else v.r
  }

  /** The value compares to the literal as the operator says; values of another kind never do. */
  ghost predicate Holds(op: ComparisonOp, literal: Literal, v: Json) {
    match literal
    case LitInteger(n) =>
      if v.Integer? then
        (op.Eq? && v.n == n) || (op.NotEq? && v.n != n) || (op.Gt? && v.n > n)
        || (op.Gte? && v.n >= n) || (op.Lt? && v.n < n) || (op.Lte? && v.n <= n)
      else v.Float? && RealHolds(op, v.r, n as real)
    case LitFloat(r) => (v.Integer? || v.Float?) && RealHolds(op, NumberOf(v), r)
    case LitBool(b) => v.Bool? && ((op.Eq? && v.b == b) || (op.NotEq? && v.b != b))
    case LitString(s) =>
      v.String? && ((op.Eq? && v.text == s) || (op.NotEq? && v.text != s) || (op.Gt? && Before(s, v.text))
                    || (op.Gte? && (v.text == s || Before(s, v.text))) || (op.Lt? && Before(v.text, s))
                    || (op.Lte? && (v.text == s || Before(v.text, s))))
  }

  ghost predicate RealHolds(op: ComparisonOp, a: real, b: real) {
    (op.Eq? && Near(a, b)) || (op.NotEq? && !Near(a, b)) || (op.Gt? && a > b)
    || (op.Gte? && a >= b) || (op.Lt? && a < b) || (op.Lte? && a <= b)
  }

  lemma CompareRealHolds(a: real, b: real, op: ComparisonOp)
    ensures CompareReal(a, b, op) <==> RealHolds(op, a, b)
  {
    var gap := if a >= b then a - b else b - a;
    assert gap < 1.0 / 4503599627370496.0 <==> gap * 4503599627370496.0 < 1.0;
  }

  /** A value passes a test exactly when it compares so. */
  lemma ValuePassesExact(op: ComparisonOp, literal: Literal, v: Json)
    ensures ValuePasses(Predicate(op, literal), v) <==> Holds(op, literal, v)
  {
    match (literal, v)
    case (LitString(s), String(text)) =>
      StringLessIsBefore(s, text);
      StringLessIsBefore(text, s);
    case (LitInteger(n), Float(r)) => CompareRealHolds(r, n as real, op);
    case (LitFloat(r), Integer(n)) => CompareRealHolds(n as real, r, op);
    case (LitFloat(r), Float(a)) => CompareRealHolds(a, r, op);
    case _ =>
  }

  // ----- guards

  /** Some value on the port compares so. */
  ghost predicate SomeHolds(op: ComparisonOp, literal: Literal, out: Ports, port: string) {
    port in out && exists v :: v in out[port] && Holds(op, literal, v)
  }

  lemma EvaluatePredicateExact(op: ComparisonOp, literal: Literal, port: string, out: Ports)
    ensures EvaluatePredicate(Predicate(op, literal), port, out) <==> SomeHolds(op, literal, out, port)
  {
    if port in out {
      forall i | 0 <= i < |out[port]|
        ensures ValuePasses(Predicate(op, literal), out[port][i]) <==> Holds(op, literal, out[port][i])
      {
        ValuePassesExact(op, literal, out[port][i]);
      }
    }
  }

  /** Edge `i` is the only one into `n`. */
  ghost predicate SoleEdge(o: Opening, i: nat, n: NodeId) {
    i < |o.edges| && forall j :: 0 <= j < |o.edges| ==> (o.edges[j].to.node == n <==> j == i)
  }

  lemma SoleEdgeRuns(o: Opening, outs: map<NodeId, Ports>, n: NodeId, i: nat)
    requires SoleEdge(o, i, n)
    ensures Runs(o, outs, n) <==>
            var e := o.edges[i]; e.from.node in outs && Passes(e, outs[e.from.node]) && Carried(e, outs[e.from.node]) != []
  {
    assert Into(o, i, n);
  }

  /**
    * In a run without failure, a node whose only inbound edge is guarded succeeds exactly when the source has completed
    * and some value on its port compares so; otherwise it is skipped.
    */
  lemma GuardDecides(o: Opening, env: Environment, records: map<NodeId, NodeRecord>, done: seq<Completion>,
                     n: NodeId, i: nat, op: ComparisonOp, literal: Literal)
    requires UniqueIds(o.nodes) && Explained(o, env, records, done, None) && n in Ids(o.nodes)
    requires SoleEdge(o, i, n) && o.edges[i].guard == Some(Predicate(op, literal))
    ensures var e := o.edges[i];
            records[n].state == if exists c :: c in done && c.node == e.from.node && SomeHolds(op, literal, c.out, e.from.port)
                                then Succeeded else Skipped
  {
    var e, outs := o.edges[i], OutputsOf(done);
    PoppedOnce(o, env, records, done);
    OutputsExact(done);
    SucceededIsRuns(o, env, records, done, n);
    SoleEdgeRuns(o, outs, n, i);
    forall out: Ports ensures EvaluatePredicate(Predicate(op, literal), e.from.port, out) <==> SomeHolds(op, literal, out, e.from.port) {
      EvaluatePredicateExact(op, literal, e.from.port, out);
    }
    if e.from.node in outs {
      CompletedWith(done, e.from.node);
    }
  }

  lemma CompletedWith(done: seq<Completion>, n: NodeId)
    requires Distinct(Nodes(done)) && n in OutputsOf(done)
    ensures Completion(n, OutputsOf(done)[n]) in done
  {
    OutputsExact(done);
    var k :| 0 <= k < |done| && Nodes(done)[k] == n;
    assert done[k] in done && done[k].out == OutputsOf(done)[n];
  }

  /** The same for integers, in arithmetic: the source's port holds integers only. */
  lemma IntegerGuardDecides(o: Opening, env: Environment, records: map<NodeId, NodeRecord>, done: seq<Completion>,
                            n: NodeId, i: nat, op: ComparisonOp, limit: int, c: Completion)
    requires UniqueIds(o.nodes) && Explained(o, env, records, done, None) && n in Ids(o.nodes)
    requires SoleEdge(o, i, n) && o.edges[i].guard == Some(Predicate(op, LitInteger(limit)))
    requires c in done && c.node == o.edges[i].from.node
    requires o.edges[i].from.port in c.out && forall v :: v in c.out[o.edges[i].from.port] ==> v.Integer?
    ensures var values := c.out[o.edges[i].from.port];
            records[n].state == Succeeded <==>
            match op
            case Eq => exists v :: v in values && v.n == limit
            case NotEq => exists v :: v in values && v.n != limit
            case Gt => exists v :: v in values && v.n > limit
            case Gte => exists v :: v in values && v.n >= limit
            case Lt => exists v :: v in values && v.n < limit
            case Lte => exists v :: v in values && v.n <= limit
  {
    GuardDecides(o, env, records, done, n, i, op, LitInteger(limit));
    SameCompletionSameOutput(o, env, records, done, c);
  }

  /** The same for strings. */
  lemma StringGuardDecides(o: Opening, env: Environment, records: map<NodeId, NodeRecord>, done: seq<Completion>,
                           n: NodeId, i: nat, op: ComparisonOp, limit: string, c: Completion)
    requires UniqueIds(o.nodes) && Explained(o, env, records, done, None) && n in Ids(o.nodes)
    requires SoleEdge(o, i, n) && o.edges[i].guard == Some(Predicate(op, LitString(limit)))
    requires c in done && c.node == o.edges[i].from.node
    requires o.edges[i].from.port in c.out && forall v :: v in c.out[o.edges[i].from.port] ==> v.String?
    ensures var values := c.out[o.edges[i].from.port];
            records[n].state == Succeeded <==>
            match op
            case Eq => exists v :: v in values && v.text == limit
            case NotEq => exists v :: v in values && v.text != limit
            case Gt => exists v :: v in values && Before(limit, v.text)
            case Gte => exists v :: v in values && (v.text == limit || Before(limit, v.text))
            case Lt => exists v :: v in values && Before(v.text, limit)
            case Lte => exists v :: v in values && (v.text == limit || Before(v.text, limit))
  {
    GuardDecides(o, env, records, done, n, i, op, LitString(limit));
    SameCompletionSameOutput(o, env, records, done, c);
  }

  /** The same for booleans, which are not ordered. */
  lemma BooleanGuardDecides(o: Opening, env: Environment, records: map<NodeId, NodeRecord>, done: seq<Completion>,
                            n: NodeId, i: nat, op: ComparisonOp, limit: bool, c: Completion)
    requires UniqueIds(o.nodes) && Explained(o, env, records, done, None) && n in Ids(o.nodes)
    requires SoleEdge(o, i, n) && o.edges[i].guard == Some(Predicate(op, LitBool(limit)))
    requires c in done && c.node == o.edges[i].from.node
    requires o.edges[i].from.port in c.out && forall v :: v in c.out[o.edges[i].from.port] ==> v.Bool?
    ensures var values := c.out[o.edges[i].from.port];
            records[n].state == Succeeded <==>
            match op
            case Eq => exists v :: v in values && v.b == limit
            case NotEq => exists v :: v in values && v.b != limit
            case _ => false
  {
    GuardDecides(o, env, records, done, n, i, op, LitBool(limit));
    SameCompletionSameOutput(o, env, records, done, c);
  }

  /** The same for numbers of mixed kind against a number that is not an integer, or integers against one that is. */
  lemma NumberGuardDecides(o: Opening, env: Environment, records: map<NodeId, NodeRecord>, done: seq<Completion>,
                           n: NodeId, i: nat, op: ComparisonOp, limit: Literal, c: Completion)
    requires UniqueIds(o.nodes) && Explained(o, env, records, done, None) && n in Ids(o.nodes)
    requires SoleEdge(o, i, n) && o.edges[i].guard == Some(Predicate(op, limit)) && (limit.LitFloat? || limit.LitInteger?)
    requires c in done && c.node == o.edges[i].from.node && o.edges[i].from.port in c.out
    requires forall v :: v in c.out[o.edges[i].from.port] ==> v.Float? || (v.Integer? && limit.LitFloat?)
    ensures var values, bound := c.out[o.edges[i].from.port], if limit.LitFloat? then limit.r else limit.n as real;
            records[n].state == Succeeded <==>
            match op
            case Eq => exists v :: v in values && Near(NumberOf(v), bound)
            case NotEq => exists v :: v in values && !Near(NumberOf(v), bound)
            case Gt => exists v :: v in values && NumberOf(v) > bound
            case Gte => exists v :: v in values && NumberOf(v) >= bound
            case Lt => exists v :: v in values && NumberOf(v) < bound
            case Lte => exists v :: v in values && NumberOf(v) <= bound
  {
    GuardDecides(o, env, records, done, n, i, op, limit);
    SameCompletionSameOutput(o, env, records, done, c);
  }

  lemma SameCompletionSameOutput(o: Opening, env: Environment, records: map<NodeId, NodeRecord>, done: seq<Completion>, c: Completion)
    requires UniqueIds(o.nodes) && History(o, env, records, done) && c in done
    ensures forall d :: d in done && d.node == c.node ==> d == c
  {
    PoppedOnce(o, env, records, done);
    OutputsExact(done);
    forall d | d in done && d.node == c.node ensures d == c {
      assert OutputsOf(done)[d.node] == d.out && OutputsOf(done)[c.node] == c.out;
    }
  }

  /** The source of the edge completed with outputs that the edge's guard, if it has one, accepts. */
  ghost predicate LetsThrough(e: Edge, done: seq<Completion>) {
    exists c :: c in done && c.node == e.from.node && Accepts(e, c.out)
  }

  ghost predicate Accepts(e: Edge, out: Ports) {
    e.guard.Some? ==> SomeHolds(e.guard.value.op, e.guard.value.value, out, e.from.port)
  }

  ghost predicate Fills(e: Edge, done: seq<Completion>) {
    exists c :: c in done && c.node == e.from.node && e.from.port in c.out && c.out[e.from.port] != []
  }

  lemma EdgeExact(e: Edge, done: seq<Completion>)
    requires Distinct(Nodes(done))
    ensures LetsThrough(e, done) <==> e.from.node in OutputsOf(done) && Passes(e, OutputsOf(done)[e.from.node])
    ensures Fills(e, done) <==> e.from.node in OutputsOf(done) && PortValues(OutputsOf(done)[e.from.node], e.from.port) != []
  {
    OutputsExact(done);
    if e.from.node in OutputsOf(done) {
      CompletedWith(done, e.from.node);
      var out := OutputsOf(done)[e.from.node];
      if e.guard.Some? {
        EvaluatePredicateExact(e.guard.value.op, e.guard.value.value, e.from.port, out);
      }
      assert Passes(e, out) <==> Accepts(e, out);
    }
  }

  /** Every edge into the node lets its source through, and if there is one, one of their ports is filled. */
  ghost predicate Called(o: Opening, done: seq<Completion>, n: NodeId) {
    && (forall e :: e in o.edges && e.to.node == n ==> LetsThrough(e, done))
    && ((forall e :: e in o.edges ==> e.to.node != n) || exists e :: e in o.edges && e.to.node == n && Fills(e, done))
  }

  lemma RuleExact(o: Opening, done: seq<Completion>, n: NodeId)
    requires Distinct(Nodes(done))
    ensures Runs(o, OutputsOf(done), n) <==> Called(o, done, n)
  {
    var outs := OutputsOf(done);
    forall i: nat | Into(o, i, n)
      ensures o.edges[i] in o.edges
      ensures LetsThrough(o.edges[i], done) <==> o.edges[i].from.node in outs && Passes(o.edges[i], outs[o.edges[i].from.node])
      ensures Fills(o.edges[i], done) <==> o.edges[i].from.node in outs && PortValues(outs[o.edges[i].from.node], o.edges[i].from.port) != []
    {
      EdgeExact(o.edges[i], done);
    }
    forall e | e in o.edges && e.to.node == n ensures exists i: nat :: Into(o, i, n) && o.edges[i] == e {
      var i :| 0 <= i < |o.edges| && o.edges[i] == e;
      assert Into(o, i, n);
    }
  }

  /**
    * In a run without failure, a node succeeds exactly when every edge into it comes from a completed node whose values
    * its guard accepts, and one of them comes from a filled port, or when no edge leads into it; otherwise it is skipped.
    */
  lemma EdgesDecide(o: Opening, env: Environment, records: map<NodeId, NodeRecord>, done: seq<Completion>, n: NodeId)
    requires UniqueIds(o.nodes) && Explained(o, env, records, done, None) && n in Ids(o.nodes)
    ensures records[n].state == if Called(o, done, n) then Succeeded else Skipped
  {
    PoppedOnce(o, env, records, done);
    SucceededIsRuns(o, env, records, done, n);
    RuleExact(o, done, n);
  }

  // ----- success conditions

  /** A completed node has filled the port, or has a value on it that compares so. */
  ghost predicate Met(expr: Expression, done: seq<Completion>) {
    exists c :: c in done && c.node == expr.reference.node && MetBy(expr, c.out)
  }

  ghost predicate MetBy(expr: Expression, out: Ports) {
    match expr
    case Exists(reference) => reference.port in out && out[reference.port] != []
    case Comparison(reference, test) => SomeHolds(test.op, test.value, out, reference.port)
  }

  lemma ExpressionExact(expr: Expression, done: seq<Completion>)
    requires Distinct(Nodes(done))
    ensures EvaluateExpression(expr, OutputsOf(done)) <==> Met(expr, done)
  {
    OutputsExact(done);
    var node := expr.reference.node;
    if expr.Comparison? {
      forall out: Ports
        ensures EvaluatePredicate(expr.test, expr.reference.port, out) <==> SomeHolds(expr.test.op, expr.test.value, out, expr.reference.port)
      {
        EvaluatePredicateExact(expr.test.op, expr.test.value, expr.reference.port, out);
      }
    }
    if node in OutputsOf(done) {
      var k :| 0 <= k < |done| && Nodes(done)[k] == node;
      assert done[k] in done && done[k].out == OutputsOf(done)[node];
    }
  }

  /** Any of the listed expressions is met, or all of them are; without a condition nothing is asked for. */
  ghost predicate Successful(success: Option<SuccessCondition>, done: seq<Completion>) {
    match success
    case None => true
    case Some(AnyOf(exprs)) => exists e :: e in exprs && Met(e, done)
    case Some(AllOf(exprs)) => forall e :: e in exprs ==> Met(e, done)
  }

  /** The success condition, as evaluated on the recorded outputs. */
  lemma SuccessExact(success: Option<SuccessCondition>, done: seq<Completion>)
    requires Distinct(Nodes(done))
    ensures EvaluateSuccess(success, OutputsOf(done)) <==> Successful(success, done)
  {
    forall e ensures EvaluateExpression(e, OutputsOf(done)) <==> Met(e, done) {
      ExpressionExact(e, done);
    }
  }
}
