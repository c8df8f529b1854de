/** Error numbers, optional values and C strings, as several modules need them. */
module Libc {
  const EIO := 5
  const E2BIG := 7
  const EBADF := 9
  const ENOMEM := 12
  const EINVAL := 22
  const EFBIG := 27
  const ERANGE := 34
  const ENODATA := 61

  datatype Option<T> = None | Some(value: T)

  datatype Result<T> = Ok(value: T) | Err(error: int)

  /** A string that its terminator ends and nothing before. */
  predicate NoNul(s: string) {
    '\0' !in s
  }

  /** isspace() in the C locale, and what str.strip() of ASCII text takes off. */
  predicate IsSpace(c: char) {
    c == ' ' || c == '\t' || c == '\n' || c == '\r' || c == 11 as char || c == 12 as char
  }

  /** Strings with commas between them. */
  function Join(ps: seq<string>): string {
    if ps == [] then ""
    else if |ps| == 1 then ps[0]
    else Join(ps[..|ps| - 1]) + "," + ps[|ps| - 1]
  }
}
