/** The six relational operators of a query filter and their SQL text. */
module Relops {

  import opened Wrappers

  datatype Relop = EQ | GE | GT | LE | LT | NE

  /** `Relop.text()`: the operator with one space on each side. */
  function Text(op: Relop): (t: string)
    ensures 3 <= |t| <= 4
    ensures t[0] == ' ' && t[|t| - 1] == ' '
    ensures forall i :: 0 < i < |t| - 1 ==> t[i] != ' '
  {
    match op
    case EQ => " = "
    case GE => " >= "
    case GT => " > "
    case LE => " <= "
    case LT => " < "
    case NE => " != "
  }

  /** Reads an operator back from its text. */
  function FromText(t: string): (r: Option<Relop>)
    ensures r.Some? ==> Text(r.value) == t
  {
    if t == " = " then Some(EQ)
    else if t == " >= " then Some(GE)
    else if t == " > " then Some(GT)
    else if t == " <= " then Some(LE)
    else if t == " < " then Some(LT)
    else if t == " != " then Some(NE)
    else None
  }

  /** Every operator's text reads back as that operator, so the six texts are distinct. */
  lemma {:induction false} TextRoundTrip(op: Relop, other: Relop)
    ensures FromText(Text(op)) == Some(op)
    ensures Text(op) == Text(other) ==> op == other
  {
  }
}
