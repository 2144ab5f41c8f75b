/** Typed configuration trees over a memory of settings: writing, processing and hashing them. */
module ConfigTree {
  import opened Prelude
  import opened Words

  type Text = seq<Byte>
  type Addr = nat

  datatype Value = IntV(i: int) | BoolV(b: bool) | FloatV(r: real) | TextV(t: Text)

  type Memory = map<Addr, Value>

  datatype Status = OK | EINVAL | EDOM

  datatype Json = JNull | JBool(b: bool) | JNumber(n: real) | JString(t: Text) | JArray | JObject(fields: seq<Field>)
  datatype Field = Field(name: Text, value: Json)

  /** A check that the exit callback makes on the shadows of two integer settings. */
  datatype Guard = NoGuard | AtMost(lo: Addr, hi: Addr)

  /**
   * The enter and exit callbacks of an object: none, or a shadow structure that entering fills with a
   * copy of the primary one and leaving copies back when everything went well.
   */
  datatype Hooks = NoHooks | Shadowed(primary: Addr, shadow: Addr, length: nat, guard: Guard)

  /** A leaf reads its setting at `read` (context) and sets it at `write` (wcontext, or context again). */
  datatype Node =
    | IntNode(name: Text, read: Addr, write: Addr, min: int, max: int)
    | BoolNode(name: Text, read: Addr, write: Addr)
    | FloatNode(name: Text, read: Addr, write: Addr, lower: Option<real>, upper: Option<real>)
    | TextNode(name: Text, read: Addr, write: Addr, size: nat)
    | EnumNode(name: Text, read: Addr, write: Addr, enums: seq<(Text, int)>)
    | ObjectNode(name: Text, children: seq<Node>, hooks: Hooks)

  const INT32_MIN := -0x8000_0000
  const INT32_MAX := 0x7fff_ffff

  /* ---- Cells ---- */

  function IntAt(m: Memory, a: Addr): int { if a in m && m[a].IntV? then m[a].i else 0 }

  function BoolAt(m: Memory, a: Addr): bool { a in m && m[a].BoolV? && m[a].b }

  function FloatAt(m: Memory, a: Addr): real { if a in m && m[a].FloatV? then m[a].r else 0.0 }

  function TextAt(m: Memory, a: Addr): Text { if a in m && m[a].TextV? then m[a].t else [] }

  /** `JSONValue::toInt`: toward zero, into the range of int32. */
  function ToInt(n: real): int
  {
    var i := if n >= 0.0 then n.Floor else -((-n).Floor);
    if i < INT32_MIN then INT32_MIN else if i > INT32_MAX then INT32_MAX else i
  }

  /** A floating point setting as its ten printed decimals have it. */
  function Printed(r: real): real
  {
    (r * 10000000000.0 + 0.5).Floor as real / 10000000000.0
  }

  /* ---- Lookups ---- */

  /** The first name listed for a value, and the first value listed for a name. */
  function EnumName(enums: seq<(Text, int)>, v: int): Option<Text>
  {
    if enums == [] then None else if enums[0].1 == v then Some(enums[0].0) else EnumName(enums[1..], v)
  }

  function EnumValue(enums: seq<(Text, int)>, t: Text): Option<int>
  {
    if enums == [] then None else if enums[0].0 == t then Some(enums[0].1) else EnumValue(enums[1..], t)
  }

  function Child(children: seq<Node>, name: Text): Option<Node>
  {
    if children == [] then None else if children[0].name == name then Some(children[0]) else Child(children[1..], name)
  }

  /* ---- Processing a JSON value into a node ---- */

  predicate TextFits(size: nat, t: Text)
  {
    size == 0 || |t| < size
  }

  predicate FloatInRange(lower: Option<real>, upper: Option<real>, r: real)
  {
    (lower.None? || r >= lower.value) && (upper.None? || r <= upper.value)
  }

  predicate InBlock(a: Addr, base: Addr, length: nat) { base <= a < base + length }

  /** What a copy of a structure of `length` cells does to cell `a`. */
  predicate CellCopied(m: Memory, m': Memory, to: Addr, from: Addr, length: nat, a: Addr)
  {
    if InBlock(a, to, length) then a - to + from in m ==> a in m' && m'[a] == m[a - to + from]
    else (a in m' <==> a in m) && (a in m ==> m'[a] == m[a])
  }

  /** Where the copy to cell `a` comes from. */
  function Source(a: Addr, to: Addr, from: Addr): int { a - to + from }

  /** `memcpy` of a structure of `length` cells. */
  function Copied(m: Memory, to: Addr, from: Addr, length: nat): (m': Memory)
    ensures forall a: Addr :: CellCopied(m, m', to, from, length, a)
  {
    m + map a: Addr | to <= a < to + length && Source(a, to, from) in m :: m[Source(a, to, from)]
  }

  /** Entering for writing: the shadow takes the primary's values. */
  function Entered(h: Hooks, m: Memory): Memory
  {
    match h
    case NoHooks => m
    case Shadowed(p, s, n, _) => Copied(m, s, p, n)
  }

  predicate GuardHolds(h: Hooks, m: Memory)
    requires h.Shadowed?
  {
    h.guard.AtMost? ==> IntAt(m, ShadowOf(h, h.guard.lo)) <= IntAt(m, ShadowOf(h, h.guard.hi))
  }

  function ShadowOf(h: Hooks, a: Addr): Addr
    requires h.Shadowed?
  {
    if h.primary <= a then a - h.primary + h.shadow else 0
  }

  /** Leaving after writing: the shadow is copied back only on success, and only if the guard holds. */
  function Exited(h: Hooks, m: Memory, st: Status): (Memory, Status)
  {
    match h
    case NoHooks => (m, st)
    case Shadowed(p, s, n, _) =>
      if st != OK then (m, st)
      else if !GuardHolds(h, m) then (m, EINVAL)
      else (Copied(m, p, s, n), OK)
  }

  /** A JSON value applied to a node: the memory afterwards, and the status. */
  function Processed(json: Json, node: Node, m: Memory): (Memory, Status)
    decreases json, 1
  {
    match (json, node)
    case (JBool(b), BoolNode(_, _, w)) => (m[w := BoolV(b)], OK)
    case (JNumber(n), IntNode(_, _, w, lo, hi)) =>
      var i := ToInt(n);
      if lo <= i <= hi then (m[w := IntV(i)], OK) else (m, EDOM)
    case (JNumber(n), FloatNode(_, _, w, lo, hi)) =>
      if FloatInRange(lo, hi, n) then (m[w := FloatV(n)], OK) else (m, EDOM)
    case (JString(t), TextNode(_, _, w, size)) =>
      if TextFits(size, t) then (m[w := TextV(t)], OK) else (m, EDOM)
    case (JString(t), EnumNode(_, _, w, enums)) =>
      var v := EnumValue(enums, t);
      if v.Some? then (m[w := IntV(v.value)], OK) else (m, EINVAL)
    case (JObject(fields), ObjectNode(_, children, h)) =>
      var (m', st) := ProcessedFields(fields, children, Entered(h, m));
      Exited(h, m', st)
    case _ => (m, EINVAL)
  }

  /** The fields of an object in turn, up to the first failure; names without a node are passed over. */
  function ProcessedFields(fields: seq<Field>, children: seq<Node>, m: Memory): (Memory, Status)
    decreases fields, 0
  {
    if fields == [] then (m, OK)
    else
      var child := Child(children, fields[0].name);
      if child.None? then ProcessedFields(fields[1..], children, m)
      else
        var (m', st) := Processed(fields[0].value, child.value, m);
        if st != OK then (m', st) else ProcessedFields(fields[1..], children, m')
  }

  /* ---- Writing a node as JSON ---- */

  /** The field that a node writes, or none, and the status; an object's is its last child's. */
  function Wrote(node: Node, m: Memory): (seq<Field>, Status)
    decreases node, 1
  {
    match node
    case IntNode(name, r, _, _, _) => ([Field(name, JNumber(IntAt(m, r) as real))], OK)
    case BoolNode(name, r, _) => ([Field(name, JBool(BoolAt(m, r)))], OK)
    case FloatNode(name, r, _, _, _) => ([Field(name, JNumber(Printed(FloatAt(m, r))))], OK)
    case TextNode(name, r, _, _) => ([Field(name, JString(TextAt(m, r)))], OK)
    case EnumNode(name, r, _, enums) =>
      var t := EnumName(enums, IntAt(m, r));
      if t.Some? then ([Field(name, JString(t.value))], OK) else ([], EINVAL)
    case ObjectNode(name, children, _) =>
      var (fields, st) := WroteChildren(children, m);
      ([Field(name, JObject(fields))], st)
  }

  function WroteChildren(children: seq<Node>, m: Memory): (seq<Field>, Status)
    decreases children, 0
  {
    if children == [] then ([], OK)
    else
      var (first, st) := Wrote(children[0], m);
      var (rest, st') := WroteChildren(children[1..], m);
      (first + rest, if children[1..] == [] then st else st')
  }
}
