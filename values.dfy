/** Nullable values and the JavaScript truthiness rules the services rely on. */
module Values {

  /** A value that may be `null`/`undefined`. */
  datatype Option<+T> = None | Some(value: T)

  /** A string is truthy in JavaScript when it is present and non-empty. */
  predicate TruthyStr(o: Option<string>) {
    o.Some? && o.value != ""
  }

  /** A number is truthy in JavaScript when it is present and non-zero. */
  predicate TruthyNum(o: Option<int>) {
    o.Some? && o.value != 0
  }

  /** JavaScript `a || b` on nullable strings. */
  function OrStr(a: Option<string>, b: Option<string>): Option<string> {
    if TruthyStr(a) then a else b
  }

  /** JavaScript `a || b` on nullable numbers. */
  function OrNum(a: Option<int>, b: Option<int>): Option<int> {
    if TruthyNum(a) then a else b
  }

  /** `${x}` of a nullable string: `null` renders as the text "null". */
  function Show(o: Option<string>): string {
    if o.Some? then o.value else "null"
  }
}
