// Taking blanks off the ends of a text.
module Texts {
  function TrimStart(s: string, blank: char -> bool): (trimmed: string)
    ensures trimmed != "" ==> !blank(trimmed[0])
  {
    if s != "" && blank(s[0]) then TrimStart(s[1..], blank) else s
  }

  function TrimEnd(s: string, blank: char -> bool): (trimmed: string)
    ensures trimmed != "" ==> !blank(trimmed[|trimmed| - 1])
  {
    if s != "" && blank(s[|s| - 1]) then TrimEnd(s[..|s| - 1], blank) else s
  }
}
