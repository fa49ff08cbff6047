/** Dynamic values, declared types and their coercions (values.go, parse.go). */
module Values {
  import opened Text

  /** Why a request or a query file is turned down. */
  datatype Error =
    | InvalidColumn | UnknownColumn | BadFilter | UnknownOperator | BadOrder | BadSelect | BadRange
    | InvalidType | UnknownParam(name: string) | MissingParam(name: string)
    | UndeclaredParam(name: string) | BadSQL
    | UnterminatedQuote | BadParamName | BadDefault
    | NoName | NoDatabase | DuplicateParam | UnknownDirective | NoStatement

  datatype Result<+T> = Success(value: T) | Failure(error: Error)

  /** A value of Go's `any` as it reaches the binder. A float is its 64-bit pattern. */
  datatype Val =
    | VNull
    | VInt(i: int)
    | VFloat(bits: int)
    | VBool(b: bool)
    | VText(s: string)
    | VList(items: seq<Val>)

  /** strconv's float and boolean syntax, which is not modelled further. */
  datatype Strconv = Strconv(
    parseFloat: string -> Option<int>, formatFloat: int -> string, parseBool: string -> Option<bool>)

  datatype ParamType = Text | Int | Float | Bool | TextList | IntList | FloatList
  {
    predicate IsList() { TextList? || IntList? || FloatList? }

    function Elem(): (e: ParamType)
      ensures !e.IsList()
    {
      match this
      case TextList => Text
      case IntList => Int
      case FloatList => Float
      case _ => this
    }
  }

  function Coerce(raw: string, t: ParamType, conv: Strconv): Result<Val> {
    match t
    case Int => (match ParseInt(raw) case Some(n) => Success(VInt(n)) case None => Failure(InvalidType))
    case Float => (match conv.parseFloat(raw) case Some(f) => Success(VFloat(f)) case None => Failure(InvalidType))
    case Bool => (match conv.parseBool(raw) case Some(b) => Success(VBool(b)) case None => Failure(InvalidType))
    case _ => Success(VText(raw))
  }
}
