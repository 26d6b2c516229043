/**
 * The few JavaScript values the model needs to tell apart: a property or an
 * environment variable read in the source is either `undefined`, `null`, or a
 * string.
 */
module JsValues {

  datatype JsValue = Undefined | Null | Str(s: string)

  /** How a value is rendered inside a JavaScript template literal `${v}`. */
  function TemplateString(v: JsValue): string
  {
    match v
    case Undefined => "undefined"
    case Null => "null"
    case Str(s) => s
  }
}
