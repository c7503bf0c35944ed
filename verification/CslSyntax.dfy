/** Expressions of the context schema language, without source spans. */
module CslSyntax {
  import opened Numbers

  datatype DurationUnit = Ns | Us | Ms | S | M | H | D | W | Mo | Y

  /** A float is kept as its lexeme. */
  datatype Literal =
    | LInteger(n: int)
    | LFloat(text: string)
    | LString(s: string)
    | LDuration(n: int, unit: DurationUnit)
    | LBool(b: bool)
    | LNull

  datatype UnaryOp = Not | Neg

  datatype BinaryOp = Eq | Ne | Lt | Le | Gt | Ge | And | Or | In | NotIn | Add | Sub | Mul | Div

  datatype Expr =
    | Lit(lit: Literal)
    | Path(segs: seq<string>)
    | Unary(uop: UnaryOp, arg: Expr)
    | Binary(bop: BinaryOp, left: Expr, right: Expr)
    | Call(path: seq<string>, args: seq<Expr>)
    | List(items: seq<Expr>)

  predicate IsSpace(c: char) {
    c == ' ' || c == '\t' || c == '\r' || c == '\n'
  }

  predicate IsIdentStart(c: char) {
    'a' <= c <= 'z' || 'A' <= c <= 'Z' || c == '_'
  }

  predicate IsIdentChar(c: char) {
    IsIdentStart(c) || IsDigit(c)
  }

  predicate AllIdentChars(s: string) {
    forall k :: 0 <= k < |s| ==> IsIdentChar(s[k])
  }

  predicate IsIdent(s: string) {
    s != "" && IsIdentStart(s[0]) && AllIdentChars(s)
  }

  predicate Reserved(s: string) {
    s in [
      "schema", "entity", "relation", "relations", "enum", "policy", "context", "import", "namespace", "version",
      "from", "via", "as", "one", "many", "optional", "required", "true", "false", "null", "and", "or", "not", "in",
      "on_delete", "cascade", "restrict", "set_null", "use", "profile"]
  }

  function UnitText(u: DurationUnit): string {
    match u
    case Ns => "ns"
    case Us => "us"
    case Ms => "ms"
    case S => "s"
    case M => "m"
    case H => "h"
    case D => "d"
    case W => "w"
    case Mo => "mo"
    case Y => "y"
  }

  function OpText(op: BinaryOp): string {
    match op
    case Eq => "=="
    case Ne => "!="
    case Lt => "<"
    case Le => "<="
    case Gt => ">"
    case Ge => ">="
    case And => "and"
    case Or => "or"
    case In => "in"
    case NotIn => "not in"
    case Add => "+"
    case Sub => "-"
    case Mul => "*"
    case Div => "/"
  }
}
