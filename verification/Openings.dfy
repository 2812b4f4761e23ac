/** JSON values, options and decimal numbers, shared by the other models. */
module Json {
  datatype Json =
    | Null
    | Bool(b: bool)
    | Integer(n: int)
    | Float(r: real)
    | String(text: string)
    | Array(items: seq<Json>)
    | Object(fields: map<string, Json>)

  datatype Option<T> = None | Some(value: T)

  /** An integer in decimal digits. */
  function Decimal(n: int): string
    decreases n < 0, if n < 0 then -n else n
  {
    if n < 0 then "-" + Decimal(-n)
    else if n < 10 then ["0123456789"[n]]
    else Decimal(n / 10) + ["0123456789"[n % 10]]
  }

  /** The number that decimal digits stand for. */
  function ReadDigits(text: string): int {
    if text == "" then 0 else 10 * ReadDigits(text[..|text| - 1]) + (text[|text| - 1] as int - '0' as int)
  }

  lemma ReadLast(text: string, c: char)
    ensures ReadDigits(text + [c]) == 10 * ReadDigits(text) + (c as int - '0' as int)
  {
    assert (text + [c])[..|text|] == text;
  }

  lemma DigitAt(d: nat)
    requires d < 10
    ensures "0123456789"[d] as int == '0' as int + d
  {
  }

  lemma DecimalSteps(n: nat)
    ensures n < 10 ==> Decimal(n) == ["0123456789"[n]]
    ensures n >= 10 ==> Decimal(n) == Decimal(n / 10) + ["0123456789"[n % 10]]
  {
  }

  lemma {:induction false} NaturalReadBack(n: nat)
    ensures Decimal(n) != "" && ReadDigits(Decimal(n)) == n && (n > 0 ==> Decimal(n)[0] != '0')
    decreases n
  {
    DecimalSteps(n);
    DigitAt(n % 10);
    var last := "0123456789"[n % 10];
    if n < 10 {
      ReadLast("", last);
      assert "" + [last] == Decimal(n);
    } else {
      var front := Decimal(n / 10);
      NaturalReadBack(n / 10);
      ReadLast(front, last);
      assert (front + [last])[0] == front[0];
    }
  }

  /** Decimal digits are read back as the number, behind a minus sign when it is negative, with no leading zero. */
  lemma DecimalReadBack(n: int)
    ensures n < 0 ==> |Decimal(n)| > 1 && Decimal(n)[0] == '-' && ReadDigits(Decimal(n)[1..]) == -n
    ensures n >= 0 ==> Decimal(n) != "" && ReadDigits(Decimal(n)) == n && (n > 0 ==> Decimal(n)[0] != '0')
  {
    if n < 0 {
      NaturalReadBack(-n);
      assert Decimal(n)[1..] == Decimal(-n);
    } else {
      NaturalReadBack(n);
    }
  }
}

/** Openings: nodes, edges with predicates, and the pure evaluation of predicates and success. */
module Openings {
  import opened Json
  import opened Graph

  type NodeId = string
  type Ports = map<string, seq<Json>>

  datatype ComparisonOp = Eq | NotEq | Gt | Gte | Lt | Lte
  datatype Literal = LitBool(b: bool) | LitInteger(n: int) | LitFloat(r: real) | LitString(text: string)
  datatype Predicate = Predicate(op: ComparisonOp, value: Literal)
  datatype PortReference = PortReference(node: NodeId, port: string)
  datatype Edge = Edge(from: PortReference, guard: Option<Predicate>, to: PortReference)

  datatype Node = Node(id: NodeId, use: string, args: map<string, Json>, maxAttempts: nat, timeoutMs: Option<nat>)

  datatype Expression = Exists(reference: PortReference) | Comparison(reference: PortReference, test: Predicate)
  datatype SuccessCondition = AnyOf(exprs: seq<Expression>) | AllOf(exprs: seq<Expression>)

  datatype Opening = Opening(
    nodes: seq<Node>, edges: seq<Edge>, success: Option<SuccessCondition>, policyTimeoutMs: Option<nat>)

  function Ids(nodes: seq<Node>): set<NodeId> {
    set n | n in nodes :: n.id
  }

  /** The parser's duplicate-id check. */
  ghost predicate UniqueIds(nodes: seq<Node>) {
    forall i, j :: 0 <= i < j < |nodes| ==> nodes[i].id != nodes[j].id
  }

  /** The graph of an edge list: one arc per edge, at the same position. */
  ghost function Arcs(edges: seq<Edge>): (arcs: seq<Arc<NodeId>>)
    ensures |arcs| == |edges|
    ensures forall i :: 0 <= i < |edges| ==> arcs[i] == Arc(edges[i].from.node, edges[i].to.node)
  {
    seq(|edges|, i requires 0 <= i < |edges| => Arc(edges[i].from.node, edges[i].to.node))
  }

  /** Appends `values` to one port, creating it on the first value only. */
  function PushAll(ports: Ports, port: string, values: seq<Json>): Ports {
    if values == [] then ports
    else ports[port := (if port in ports then ports[port] else []) + values]
  }

  function PortValues(ports: Ports, port: string): seq<Json> {
    if port in ports then ports[port] else []
  }

  function CompareReal(actual: real, expected: real, op: ComparisonOp): bool {
    var epsilon := 1.0 / 4503599627370496.0;
    var gap := if actual >= expected then actual - expected else expected - actual;
    match op
    case Eq => gap < epsilon
    case NotEq => gap >= epsilon
    case Gt => actual > expected
    case Gte => actual >= expected
    case Lt => actual < expected
    case Lte => actual <= expected
  }

  function CompareInteger(actual: int, expected: int, op: ComparisonOp): bool {
    match op
    case Eq => actual == expected
    case NotEq => actual != expected
    case Gt => actual > expected
    case Gte => actual >= expected
    case Lt => actual < expected
    case Lte => actual <= expected
  }

  /** Lexicographic order by code point. */
  predicate StringLess(a: string, b: string) {
    if b == "" then false
    else if a == "" then true
    else a[0] < b[0] || (a[0] == b[0] && StringLess(a[1..], b[1..]))
  }

  function CompareString(actual: string, expected: string, op: ComparisonOp): bool {
    match op
    case Eq => actual == expected
    case NotEq => actual != expected
    case Gt => StringLess(expected, actual)
    case Gte => actual == expected || StringLess(expected, actual)
    case Lt => StringLess(actual, expected)
    case Lte => actual == expected || StringLess(actual, expected)
  }

  predicate ValuePasses(test: Predicate, value: Json) {
    match (test.value, value)
    case (LitBool(expected), Bool(actual)) =>
      (test.op.Eq? && actual == expected) || (test.op.NotEq? && actual != expected)
    case (LitString(expected), String(actual)) => CompareString(actual, expected, test.op)
    case (LitInteger(expected), Integer(actual)) => CompareInteger(actual, expected, test.op)
    case (LitInteger(expected), Float(actual)) => CompareReal(actual, expected as real, test.op)
    case (LitFloat(expected), Integer(actual)) => CompareReal(actual as real, expected, test.op)
    case (LitFloat(expected), Float(actual)) => CompareReal(actual, expected, test.op)
    case _ => false
  }

  /** A predicate holds on a port when some value there passes it; a missing port fails. */
  predicate EvaluatePredicate(test: Predicate, port: string, outputs: Ports) {
    port in outputs && exists i :: 0 <= i < |outputs[port]| && ValuePasses(test, outputs[port][i])
  }

  predicate EvaluateExpression(expr: Expression, outputs: map<NodeId, Ports>) {
    expr.reference.node in outputs &&
    match expr
    case Exists(reference) => PortValues(outputs[reference.node], reference.port) != []
    case Comparison(reference, p) => EvaluatePredicate(p, reference.port, outputs[reference.node])
  }

  predicate EvaluateSuccess(success: Option<SuccessCondition>, outputs: map<NodeId, Ports>) {
    match success
    case None => true
    case Some(AnyOf(exprs)) => exists i :: 0 <= i < |exprs| && EvaluateExpression(exprs[i], outputs)
    case Some(AllOf(exprs)) => forall i :: 0 <= i < |exprs| ==> EvaluateExpression(exprs[i], outputs)
  }

  /** Whether an edge lets the outputs of its source through. */
  predicate Passes(e: Edge, outputs: Ports) {
    e.guard.None? || EvaluatePredicate(e.guard.value, e.from.port, outputs)
  }

  /** The values an edge carries to its target, given the outputs of its source. */
  function Carried(e: Edge, outputs: Ports): seq<Json> {
    if Passes(e, outputs) then PortValues(outputs, e.from.port) else []
  }
}
