/** Zero-terminated strings in buffers. */
module CStrings {

  predicate NoZero(s: string) {
    forall i :: 0 <= i < |s| ==> s[i] != '\0'
  }

  /** The string at the start of a buffer. */
  function CString(buffer: string): string {
    if buffer == "" || buffer[0] == '\0' then "" else [buffer[0]] + CString(buffer[1..])
  }

  lemma {:induction false} CStringOfTerminated(s: string, rest: string)
    requires NoZero(s)
    ensures CString(s + ("\0" + rest)) == s
  {
    if s == "" {
    } else {
      assert (s + ("\0" + rest))[1..] == s[1..] + ("\0" + rest);
      CStringOfTerminated(s[1..], rest);
    }
  }
}
