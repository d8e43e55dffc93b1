/**
 What the modelled code calls but does not define: the regular-expression engine, address and CIDR
 matching (notation of RFC 4632, section 3.1), Unicode lower-casing, the conversion of a JSON number
 literal to a machine integer, and JavaScript's rendering of a value as text. Every theorem holds for every choice of these functions.
 */
module Library {
  import opened Wrappers
  import opened Decimal
  import opened Json

  datatype Lib = Lib(
    regexCompiles: string -> bool,
    regexMatches: (string, string) -> bool,      // pattern, text
    toLower: string -> string,
    cidrContains: (string, string) -> bool,      // network, address; false for malformed notation
    sameAddress: (string, string) -> bool,       // text, address; false for malformed text
    truncatedFloat: string -> Option<int>,       // a number literal read as a float64, truncated
    jsText: Json -> string)                      // JavaScript's String() of a number, array or object
  {
    /** Go decodes the literal into a `float64` and converts it to `int64`. */
    function Int64Of(literal: string): (r: Option<int>)
      ensures r.Some? ==> IsInt64(r.value)
    {
      match truncatedFloat(literal)
      case Some(n) => Some(ToInt64(n))
      case None => None
    }
  }
}
