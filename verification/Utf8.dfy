/** UTF-8 text as bytes, and the character boundaries `str::is_char_boundary` accepts. */
module Utf8 {
  newtype byte = x: int | 0 <= x < 256

  type Bytes = seq<byte>

  predicate IsContinuation(b: byte) {
    0x80 <= b < 0xC0
  }

  predicate IsBoundary(s: Bytes, i: nat) {
    i == 0 || i == |s| || (i < |s| && !IsContinuation(s[i]))
  }

  /** The bytes one scalar value takes, by its first byte (section 3 of RFC 3629). */
  function Width(lead: byte): nat {
    if lead < 0x80 then 1
    else if 0xC2 <= lead < 0xE0 then 2
    else if 0xE0 <= lead < 0xF0 then 3
    else if 0xF0 <= lead < 0xF5 then 4
    else 0
  }

  /** One encoded scalar value: the table of section 4 of RFC 3629. */
  predicate IsScalar(s: Bytes) {
    && 1 <= |s| <= 4 && Width(s[0]) == |s|
    && (forall i :: 1 <= i < |s| ==> IsContinuation(s[i]))
    && (s[0] == 0xE0 ==> s[1] >= 0xA0)
    && (s[0] == 0xED ==> s[1] < 0xA0)
    && (s[0] == 0xF0 ==> s[1] >= 0x90)
    && (s[0] == 0xF4 ==> s[1] < 0x90)
  }

  /** What a Rust `str` holds: encoded scalar values one after another. */
  predicate IsUtf8(s: Bytes)
    decreases |s|
  {
    s == [] ||
    (var n := Width(s[0]);
     1 <= n <= |s| && IsScalar(s[..n]) && IsUtf8(s[n..]))
  }

  /** At most three bytes separate any position from the next boundary. */
  lemma {:induction false} BoundaryNear(s: Bytes, i: nat)
    requires IsUtf8(s) && i <= |s|
    ensures exists j :: i <= j <= i + 3 && j <= |s| && IsBoundary(s, j)
    decreases |s|
  {
    if |s| <= i + 3 {
      assert IsBoundary(s, |s|);
    } else {
      var n := Width(s[0]);
      assert s[..n][0] == s[0];
      if i == 0 {
        assert IsBoundary(s, 0);
      } else if i < n {
        assert !IsContinuation(s[n]) by {
          assert s[n] == s[n..][0];
          assert IsUtf8(s[n..]);
          assert Width(s[n..][0]) >= 1;
        }
        assert IsBoundary(s, n);
      } else {
        BoundaryNear(s[n..], i - n);
        var j :| i - n <= j <= i - n + 3 && j <= |s[n..]| && IsBoundary(s[n..], j);
        if j == 0 {
          assert s[n] == s[n..][0];
          assert Width(s[n..][0]) >= 1;
        } else if j < |s[n..]| {
          assert s[n..][j] == s[n + j];
        }
        assert IsBoundary(s, n + j);
      }
    }
  }
}
