/** Optional values, and trimming. */
module Wrappers {

  datatype Option<+T> = None | Some(value: T)

  predicate WhiteSpace(c: char) {
    c == ' ' || '\t' <= c <= '\r'
  }

  /** Only white space: what trimming leaves empty. */
  predicate Blank(s: string) {
    forall c :: c in s ==> WhiteSpace(c)
  }

  function TrimStart(s: string): (r: string)
    ensures |r| <= |s| && r == s[|s| - |r|..] && Blank(s[..|s| - |r|])
    ensures r == "" || !WhiteSpace(r[0])
  {
    if s != "" && WhiteSpace(s[0]) then TrimStart(s[1..]) else s
  }

  function TrimEnd(s: string): (r: string)
    ensures r <= s && Blank(s[|r|..])
    ensures r == "" || !WhiteSpace(r[|r| - 1])
  {
    if s != "" && WhiteSpace(s[|s| - 1]) then TrimEnd(s[..|s| - 1]) else s
  }

  /** `s.trim()`. */
  function Trim(s: string): (r: string)
    ensures r == "" || (!WhiteSpace(r[0]) && !WhiteSpace(r[|r| - 1]))
  {
    TrimEnd(TrimStart(s))
  }
}
