/** Small shared vocabulary: an Option type for Ruby's nil, and ActiveSupport's
    notion of a blank or present string, which both the request filter
    (`params[:affiliate].present?`) and the feed validations (`validates_presence_of`)
    rely on. */
module Common {

  /** A value that may be Ruby's nil. */
  datatype Option<+T> = None | Some(value: T)

  /** The characters Ruby's regular-expression class `\s` matches
      (space, tab, line feed, vertical tab, form feed, carriage return). */
  predicate IsWhitespace(c: char) {
    c == ' ' || c == '\t' || c == '\n' || c == '\U{B}' || c == '\U{C}' || c == '\r'
  }

  /** A string is blank when it has no non-whitespace character. */
  predicate Blank(s: string) {
    forall i :: 0 <= i < |s| ==> IsWhitespace(s[i])
  }

  /** `present?`: not nil and not blank. */
  predicate Present(s: Option<string>) {
    s.Some? && !Blank(s.value)
  }
}
