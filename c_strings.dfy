/**
 * The metadata reader's buffer helpers (doc/examples/extract_timed_metadata.c):
 * `memndup`, which copies `n` bytes, and `local_strndup`, which copies `n`
 * bytes and terminates the string at the first NUL among them.
 */
module CStrings {
  import opened AvTypes

  /** The index of the first NUL byte, or the length when there is none. */
  function FirstNul(s: seq<uint8>): (r: nat)
    ensures r <= |s|
    ensures r < |s| ==> s[r] == 0
    ensures forall k :: 0 <= k < r ==> s[k] != 0
  {
    if s == [] || s[0] == 0 then 0 else 1 + FirstNul(s[1..])
  }

  /** The C string held in a buffer: its bytes up to the first NUL. */
  function CString(s: seq<uint8>): seq<uint8>
  {
    s[..FirstNul(s)]
  }

  /** A buffer's C string is NUL-free, and is the whole buffer exactly when the buffer is. */
  lemma CStringProperties(s: seq<uint8>)
    ensures 0 !in CString(s)
    ensures CString(s) == s <==> 0 !in s
  {
    if 0 in s {
      var k :| 0 <= k < |s| && s[k] == 0;
      assert FirstNul(s) <= k;
    }
  }

  /** `memndup(ptr, n)`: a new buffer holding the first `n` bytes at `ptr`. */
  function MemNDup(ptr: seq<uint8>, n: nat): (r: seq<uint8>)
    requires n <= |ptr|
    ensures |r| == n && forall k :: 0 <= k < n ==> r[k] == ptr[k]
  {
    ptr[..n]
  }

  /**
   * `local_strndup(str, n)`: count the bytes before the first NUL among the
   * first `n`, copy all `n` bytes into a buffer of `n + 1` and write a NUL
   * after the counted bytes. The byte at `n` is left uninitialised when a
   * NUL was found earlier; it is not specified here. The count tests the
   * bound before reading, which the source does the other way round (see
   * `ScanAsWritten`).
   */
  method LocalStrndup(str: seq<uint8>, n: nat) returns (buffer: seq<uint8>)
    requires n <= |str|
    ensures |buffer| == n + 1
    ensures buffer[FirstNul(str[..n])] == 0
    ensures forall k :: 0 <= k < n && k != FirstNul(str[..n]) ==> buffer[k] == str[k]
    ensures CString(buffer) == CString(str[..n])
  {
    var len := 0;
    while len < n && str[len] != 0
      invariant 0 <= len <= n
      invariant forall k :: 0 <= k < len ==> str[k] != 0
    {
      len := len + 1;
    }
    assert len == FirstNul(str[..n]) by {
      assert forall k :: 0 <= k < len ==> str[..n][k] != 0;
      assert len < n ==> str[..n][len] == 0;
    }
    buffer := str[..n] + [0];
    buffer := buffer[len := 0];
    assert FirstNul(buffer) == len by {
      assert forall k :: 0 <= k < len ==> buffer[k] != 0;
      assert buffer[len] == 0;
    }
    assert CString(buffer) == CString(str[..n]) by {
      assert buffer[..len] == str[..n][..len];
    }
  }

  /**
   * The count of `local_strndup` as the source writes it: `str[len]` is
   * read before `len < n` is tested. `None` means the loop reads past the
   * end of `str`.
   */
  function ScanAsWritten(str: seq<uint8>, n: nat, len: nat): Option<nat>
    requires len <= n
    decreases |str| - len
  {
    if len >= |str| then None
    else if str[len] != 0 && len < n then ScanAsWritten(str, n, len + 1)
    else Some(len)
  }

  /**
   * With exactly the `n` bytes the copy needs, the scan as written reads
   * out of bounds precisely when none of them is NUL; otherwise it finds
   * the first NUL, as the corrected scan does.
   */
  lemma {:induction false} ScanAsWrittenOutcome(str: seq<uint8>, n: nat, len: nat)
    requires len <= n <= |str|
    requires forall k :: 0 <= k < len ==> str[k] != 0
    ensures ScanAsWritten(str, n, len) == None <==> n == |str| && 0 !in str[..n]
    ensures ScanAsWritten(str, n, len).Some? ==> ScanAsWritten(str, n, len) == Some(FirstNul(str[..n]))
    decreases |str| - len
  {
    var f := FirstNul(str[..n]);
    if len >= |str| {
      assert 0 !in str[..n];
    } else if str[len] != 0 && len < n {
      ScanAsWrittenOutcome(str, n, len + 1);
    } else if len < n {
      assert str[..n][len] == 0;
      assert f == len;
    } else {
      assert n < |str|;
      assert forall k :: 0 <= k < n ==> str[..n][k] != 0;
      assert f == n;
    }
  }

  /**
   * The reader's `local_strndup(metadata->meta_tag, 4)` on the tag "cdsc":
   * no NUL among the four bytes, so the scan reads a fifth byte that is
   * not part of the tag, while the corrected scan stops at 4.
   */
  lemma StrndupOverreadWitness()
    ensures ScanAsWritten([0x63, 0x64, 0x73, 0x63], 4, 0) == None
    ensures FirstNul([0x63, 0x64, 0x73, 0x63]) == 4
  {
    var s: seq<uint8> := [0x63, 0x64, 0x73, 0x63];
    assert s[1..] == [0x64, 0x73, 0x63];
    assert s[1..][1..] == [0x73, 0x63];
    assert s[1..][1..][1..] == [0x63];
  }
}
