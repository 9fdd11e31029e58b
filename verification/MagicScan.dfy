/** Whether a file is a package (`IsCameyoFile` in WinPlayer/Utils.cs): four bytes that end a package are looked for
    at the end of the file and then, because a signature may follow them, in the last 32768 bytes. */
module MagicScan {
  type Byte = b: int | 0 <= b < 0x100

  const MAGIC: seq<Byte> := [0xBE, 0xBA, 0xCA, 0xDE]
  const MIN_LENGTH: nat := 1024 * 1024
  const BUF_LEN: nat := 32 * 1024

  /** The bytes BE BA CA DE stand at a place. */
  predicate MagicAt(s: seq<Byte>, i: nat) {
    i + 4 <= |s| && s[i] == 0xBE && s[i + 1] == 0xBA && s[i + 2] == 0xCA && s[i + 3] == 0xDE
  }

  /** The loops that compare byte by byte and stop at the first difference. */
  method Matches(s: seq<Byte>, i: nat) returns (match_: bool)
    requires i + 4 <= |s|
    ensures match_ <==> MagicAt(s, i)
  {
    match_ := true;
    for j := 0 to |MAGIC|
      invariant match_ && forall k :: 0 <= k < j ==> s[i + k] == MAGIC[k]
    {
      if s[i + j] != MAGIC[j] {
        match_ := false;
        break;
      }
    }
    assert MAGIC[0] == 0xBE && MAGIC[1] == 0xBA && MAGIC[2] == 0xCA && MAGIC[3] == 0xDE;
  }

  /** For files whose reads return all bytes asked for: the answer is yes exactly when the file is long enough and the
      four bytes stand, as a whole, somewhere in its last 32768 bytes. The scan leaves out the last possible place,
      which the first test has covered. */
  method IsCameyoFile(contents: seq<Byte>) returns (r: bool)
    ensures r <==>
            && |contents| >= 1_048_576
            && exists p: nat :: |contents| - 32_768 <= p <= |contents| - 4 && MagicAt(contents, p)
  {
    if |contents| < MIN_LENGTH {
      return false;
    }
    var eof := contents[|contents| - 4..];
    var match_ := Matches(eof, 0);
    if match_ {
      assert MagicAt(contents, |contents| - 4);
      return true;
    }
    var start := |contents| - BUF_LEN;
    var buf := contents[start..];
    for i := 0 to BUF_LEN - |MAGIC|
      invariant forall p: nat :: start <= p < start + i ==> !MagicAt(contents, p)
    {
      match_ := Matches(buf, i);
      assert MagicAt(buf, i) <==> MagicAt(contents, start + i);
      if match_ {
        assert MagicAt(contents, start + i);
        return true;
      }
    }
    r := false;
  }
}
