/** The DynamoDB filter conditions that the core builds with boto3's `Attr`
    helpers, as an expression tree, and what it means for a stored item to
    satisfy one. */
module Conditions {
  import opened Values

  /** A stored item: attribute name to attribute value. */
  type Item = map<string, Json>

  const CreatedAtTimestamp: string := "created_at_timestamp"
  const MessageFrom: string := "message_from"
  const ProvidedKey: string := "provided_key"

  /** `Attr(a).eq(v)`, `.gte(v)`, `.lte(v)`, `.between(lo, hi)`,
      `.contains(v)`, and the `&` and `|` combinators. */
  datatype Cond =
    | Eq(attr: string, value: Json)
    | Gte(attr: string, value: Json)
    | Lte(attr: string, value: Json)
    | Between(attr: string, low: Json, high: Json)
    | Contains(attr: string, value: Json)
    | And(left: Cond, right: Cond)
    | Or(left: Cond, right: Cond)

  /** Lexicographic order on strings (DynamoDB compares strings byte-wise). */
  predicate LexLe(a: string, b: string)
    decreases |a|
  {
    a == [] || (b != [] && (a[0] < b[0] || (a[0] == b[0] && LexLe(a[1..], b[1..]))))
  }

  /** DynamoDB's `<=` on two attribute values: numbers numerically, strings
      lexicographically; values of different kinds never compare. */
  predicate Le(x: Json, y: Json)
  {
    match (x, y)
    case (JNum(a), JNum(b)) => a <= b
    case (JStr(a), JStr(b)) => LexLe(a, b)
    case _ => false
  }

  /** Whether an item satisfies a condition. A comparison on a missing
      attribute is false. */
  predicate Eval(c: Cond, item: Item)
  {
    match c
    case Eq(a, v) => a in item && item[a] == v
    case Gte(a, v) => a in item && Le(v, item[a])
    case Lte(a, v) => a in item && Le(item[a], v)
    case Between(a, lo, hi) => a in item && Le(lo, item[a]) && Le(item[a], hi)
    case Contains(a, v) => a in item && item[a].JArr? && v in item[a].elems
    case And(l, r) => Eval(l, item) && Eval(r, item)
    case Or(l, r) => Eval(l, item) || Eval(r, item)
  }

  /** An absent filter expression keeps every item. */
  predicate EvalOpt(c: Option<Cond>, item: Item)
  {
    c.None? || Eval(c.value, item)
  }

  /** The recurring "if f: f = f & c else: f = c" step. */
  function Join(f: Option<Cond>, c: Cond): (r: Cond)
    ensures forall item :: Eval(r, item) <==> EvalOpt(f, item) && Eval(c, item)
  {
    if f.Some? then And(f.value, c) else c
  }

  /** The operands of a tree of `&`, left to right. */
  function Conjuncts(c: Cond): seq<Cond>
  {
    match c
    case And(l, r) => Conjuncts(l) + Conjuncts(r)
    case _ => [c]
  }

  function ConjunctsOpt(c: Option<Cond>): seq<Cond>
  {
    if c.Some? then Conjuncts(c.value) else []
  }

  /** The operands of a left-nested chain of `|`, left to right. */
  function LeftOrSpine(c: Cond): seq<Cond>
  {
    match c
    case Or(l, r) => LeftOrSpine(l) + [r]
    case _ => [c]
  }
}
