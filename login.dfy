/** The response half of `loginGetKeys`: after the header, the rest of the reply is the
    server's salt and challenge separated by a NUL byte. The client answers with two MD5 hex
    digests, the salted password and the hash of it with the challenge. MD5 is a parameter
    here (`md5hex`, any function from bytes to the bytes of a hex digest). */
module Login {

  import opened Bytes
  import opened Wrappers
  import opened NodeBuffer
  import opened Replies
  import opened Decoding
  import opened Parsers

  /** What `loginGetKeys` returns for reply `s`: the status check (length always read), then
      the remainder split at its first NUL. Without a NUL, `indexOf` gives -1, so the salt
      is read from `subarray(0, -1)` (all but the last byte) and the challenge from
      `subarray(0)` (all of it). */
  function LoginKeysReply(s: seq<byte>, pass: seq<byte>, md5hex: seq<byte> -> seq<byte>)
    : (r: Result<(seq<byte>, seq<byte>)>)
    ensures r.Ok? <==> |s| >= 5 && s[0] == 0
    ensures r.Err? && r.error.Message? ==> r.error.text == "login get keys error: "
  {
    var at :- StatusAt(s, Always, "login get keys");
    var rest := Subarray(s, at, |s|);
    var i := IndexOf(rest, 0);
    var salt := md5hex(pass + Subarray(rest, 0, i));
    var hash := md5hex(salt + Subarray(rest, i + 1, |rest|));
    Ok((salt, hash))
  }

  /** `loginGetKeys` after `send`: the decoder's status check, `dec.remains()`, the NUL
      search and the two digests. */
  method LoginGetKeysResponse(b: array<byte>, pass: seq<byte>, md5hex: seq<byte> -> seq<byte>)
    returns (r: Result<(seq<byte>, seq<byte>)>)
    ensures r == LoginKeysReply(b[..], pass, md5hex)
  {
    var dec := new Decoder(b);
    var _ :- CheckStatus(dec, Always, "login get keys");
    var rest := dec.Remains();
    var i := IndexOf(rest, 0);
    var salt := md5hex(pass + Subarray(rest, 0, i));
    var hash := md5hex(salt + Subarray(rest, i + 1, |rest|));
    r := Ok((salt, hash));
  }

  /** The first NUL of `x + [0] + y`, when `x` holds none, is the one right after `x`. */
  lemma FirstNul(x: seq<byte>, y: seq<byte>)
    requires 0 !in x
    ensures IndexOf(x + [0] + y, 0) == |x|
  {
    var z := x + [0] + y;
    assert z[|x|] == 0 && z[..|x|] == x;
  }

  /** A successful reply holding a salt without NUL, a NUL and a challenge: the client
      hashes the password with exactly that salt, and the result with exactly that
      challenge. */
  lemma LoginKeysRoundTrip(s: seq<byte>, length: int, pass: seq<byte>, salt: seq<byte>,
                           challenge: seq<byte>, md5hex: seq<byte> -> seq<byte>)
    requires IsInt32(length) && 0 !in salt
    requires s == Header(Always, length) + (salt + [0] + challenge)
    ensures var key := md5hex(pass + salt);
            LoginKeysReply(s, pass, md5hex) == Ok((key, md5hex(key + challenge)))
  {
    var rest := salt + [0] + challenge;
    HeaderThen(s, Always, "login get keys", length, rest);
    assert Subarray(s, 5, |s|) == rest;
    FirstNul(salt, challenge);
    assert Subarray(rest, 0, |salt|) == salt;
    assert Subarray(rest, |salt| + 1, |rest|) == challenge;
  }

  /** Without a NUL after the header, the salt loses the last byte of the remainder and the
      challenge is the whole remainder. */
  lemma LoginKeysWithoutNul(s: seq<byte>, pass: seq<byte>, md5hex: seq<byte> -> seq<byte>)
    requires StatusAt(s, Always, "login get keys").Ok? && |s| > 5 && 0 !in s[5..]
    ensures var key := md5hex(pass + s[5..|s| - 1]);
            LoginKeysReply(s, pass, md5hex) == Ok((key, md5hex(key + s[5..])))
  {
    var rest := Subarray(s, 5, |s|);
    assert rest == s[5..];
    assert Subarray(rest, 0, -1) == s[5..|s| - 1];
    assert Subarray(rest, 0, |rest|) == s[5..];
  }
}
