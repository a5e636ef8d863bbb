/** Text forms that several components share. */
module Texts {

  /** `s.rstrip("/")` */
  function StripSlashes(s: string): string {
    if s != "" && s[|s| - 1] == '/' then StripSlashes(s[..|s| - 1]) else s
  }

  /** A SHA-256 digest in lower-case hexadecimal. */
  predicate IsDigest(d: string) {
    |d| == 64 && forall i :: 0 <= i < 64 ==> '0' <= d[i] <= '9' || 'a' <= d[i] <= 'f'
  }
}
