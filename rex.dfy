/**
 * Row expressions (Calcite's RexNode) as far as the outer-join rule looks
 * into them: column references, calls with an operator kind and operands,
 * and everything else as an opaque leaf carrying its own printed form.
 */
module Rex {

  /** The operator kinds (SqlKind) the rule distinguishes; any other kind is kept by its name. */
  datatype Kind = Equals | And | Or | IsNull | IsNotNull | Not | OtherKind(name: string)

  datatype Expr =
    | InputRef(index: nat)                    // RexInputRef: the index-th column of the input row
    | Call(kind: Kind, operands: seq<Expr>)   // RexCall
    | Opaque(digest: string)                  // literals, field accesses, dynamic parameters, ...

  function KindName(k: Kind): string
  {
    match k
    case Equals => "="
    case And => "AND"
    case Or => "OR"
    case IsNull => "IS NULL"
    case IsNotNull => "IS NOT NULL"
    case Not => "NOT"
    case OtherKind(name) => name
  }

  function Digit(d: nat): char
    requires d < 10
  {
    "0123456789"[d]
  }

  function NatToString(n: nat): string
  {
    if n < 10 then [Digit(n)] else NatToString(n / 10) + [Digit(n % 10)]
  }

  /**
   * The printed form of an expression (RexNode.toString), e.g. `=($0, $2)`;
   * the rule's memo is keyed on it.
   */
  function Digest(e: Expr): string
  {
    match e
    case InputRef(i) => "$" + NatToString(i)
    case Call(k, ops) => KindName(k) + "(" + DigestList(ops) + ")"
    case Opaque(s) => s
  }

  function DigestList(ops: seq<Expr>): string
  {
    if ops == [] then ""
    else if |ops| == 1 then Digest(ops[0])
    else Digest(ops[0]) + ", " + DigestList(ops[1..])
  }
}
