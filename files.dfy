/** The local working directory the services use for temporary files: a map
    from path to contents, changed in place by writes and removals. */
module LocalFiles {
  import opened Wrappers

  newtype byte = x: int | 0 <= x < 256

  type Bytes = seq<byte>

  class FileSystem {
    var files: map<string, Bytes>

    constructor (initial: map<string, Bytes>)
      ensures files == initial
    {
      files := initial;
    }

    /** open(path, 'wb').write(data): creates or truncates the file. */
    method Write(path: string, data: Bytes)
      modifies this
      ensures files == old(files)[path := data]
    {
      files := files[path := data];
    }

    /** if os.path.exists(path): os.remove(path) */
    method RemoveIfExists(path: string)
      modifies this
      ensures files == old(files) - {path}
    {
      if path in files {
        files := files - {path};
      }
    }

    /** for path in paths: if os.path.exists(path): os.remove(path) */
    method RemoveEach(paths: seq<string>)
      modifies this
      ensures files == old(files) - set p | p in paths
    {
      for i := 0 to |paths|
        invariant files == old(files) - set k | 0 <= k < i :: paths[k]
      {
        RemoveIfExists(paths[i]);
        assert (set k | 0 <= k < i + 1 :: paths[k]) == (set k | 0 <= k < i :: paths[k]) + {paths[i]};
      }
      assert (set k | 0 <= k < |paths| :: paths[k]) == set p | p in paths by {
        forall p | p in paths ensures p in set k | 0 <= k < |paths| :: paths[k] {
          var k :| 0 <= k < |paths| && paths[k] == p;
        }
      }
    }
  }

  /** Files written and then removed leave the directory as it was, apart
      from those files being gone. */
  lemma WritesThenRemove(m: map<string, Bytes>, a: string, va: Bytes, b: string, vb: Bytes)
    ensures m[a := va][b := vb] - {a, b} == m - {a, b}
  {
  }

  /** Likewise with one more file written that is not removed. */
  lemma WritesOutputThenRemove(m: map<string, Bytes>, a: string, va: Bytes, b: string, vb: Bytes,
                               o: string, vo: Bytes)
    requires o != a && o != b
    ensures m[a := va][b := vb][o := vo] - {a, b} == m[o := vo] - {a, b}
  {
  }

  lemma WritesThenRemoveThree(m: map<string, Bytes>, a: string, va: Bytes, b: string, vb: Bytes, c: string)
    ensures m[a := va][b := vb] - {a, b, c} == m - {a, b, c}
  {
  }

  /** The UTF-8 encoding of one character, as open(path, 'w') writes text. */
  function Utf8(c: char): (r: Bytes)
    ensures 1 <= |r| <= 4
    ensures (c as int < 0x80) <==> |r| == 1
  {
    var n := c as int;
    if n < 0x80 then [n as byte]
    else if n < 0x800 then [(0xC0 + n / 64) as byte, (0x80 + n % 64) as byte]
    else if n < 0x10000 then
      [(0xE0 + n / 4096) as byte, (0x80 + n / 64 % 64) as byte, (0x80 + n % 64) as byte]
    else
      [(0xF0 + n / 262144) as byte, (0x80 + n / 4096 % 64) as byte,
       (0x80 + n / 64 % 64) as byte, (0x80 + n % 64) as byte]
  }

  /** The bytes a text-mode write of s puts in the file.  ASCII text is
      written byte for byte; DecodeEncode gives it back for any text. */
  function EncodeText(s: string): (r: Bytes)
    ensures |r| >= |s|
    ensures (forall k :: 0 <= k < |s| ==> s[k] as int < 0x80) ==> |r| == |s|
    ensures (forall k :: 0 <= k < |s| ==> s[k] as int < 0x80) ==>
              forall k :: 0 <= k < |s| ==> r[k] as int == s[k] as int
  {
    if s == [] then [] else Utf8(s[0]) + EncodeText(s[1..])
  }

  /** A continuation byte of UTF-8: 10xxxxxx. */
  predicate IsContinuation(b: byte) {
    0x80 <= b < 0xC0
  }

  /** The first character of a UTF-8 byte string with the number of bytes it
      takes, or None when the bytes there are no well-formed encoding
      (a stray or missing continuation byte, an overlong form, a surrogate,
      or a value past U+10FFFF). */
  function DecodeChar(b: Bytes): (r: Option<(char, nat)>)
    ensures r.Some? ==> 1 <= r.value.1 <= |b|
  {
    if |b| == 0 then None
    else if b[0] < 0x80 then Some((b[0] as int as char, 1))
    else if 0xC0 <= b[0] < 0xE0 && |b| >= 2 && IsContinuation(b[1]) then
      var n := (b[0] as int - 0xC0) * 64 + (b[1] as int - 0x80);
      if n < 0x80 then None else Some((n as char, 2))
    else if 0xE0 <= b[0] < 0xF0 && |b| >= 3 && IsContinuation(b[1]) && IsContinuation(b[2]) then
      var n := (b[0] as int - 0xE0) * 4096 + (b[1] as int - 0x80) * 64 + (b[2] as int - 0x80);
      if n < 0x800 || 0xD800 <= n < 0xE000 then None else Some((n as char, 3))
    else if 0xF0 <= b[0] < 0xF8 && |b| >= 4 && IsContinuation(b[1]) && IsContinuation(b[2])
            && IsContinuation(b[3]) then
      var n := (b[0] as int - 0xF0) * 262144 + (b[1] as int - 0x80) * 4096
               + (b[2] as int - 0x80) * 64 + (b[3] as int - 0x80);
      if n < 0x10000 || n >= 0x110000 then None else Some((n as char, 4))
    else None
  }

  /** Reading a file's bytes back as UTF-8 text, or None when they are not
      well-formed UTF-8. */
  function DecodeText(b: Bytes): Option<string>
    decreases |b|
  {
    if b == [] then Some("")
    else match DecodeChar(b)
      case None => None
      case Some((c, k)) =>
        match DecodeText(b[k..])
        case None => None
        case Some(rest) => Some([c] + rest)
  }

  /** Each character's encoding decodes back to it, whatever follows. */
  lemma DecodeUtf8(c: char, tail: Bytes)
    ensures DecodeChar(Utf8(c) + tail) == Some((c, |Utf8(c)|))
  {
    var n := c as int;
    if n < 0x80 {
    } else if n < 0x800 {
      DecodeTwo(c, tail);
    } else if n < 0x10000 {
      DecodeThree(c, tail);
    } else {
      DecodeFour(c, tail);
    }
  }

  lemma DecodeTwo(c: char, tail: Bytes)
    requires 0x80 <= c as int < 0x800
    ensures DecodeChar(Utf8(c) + tail) == Some((c, 2))
  {
    var n := c as int;
    var b := Utf8(c) + tail;
    assert b[0] as int == 0xC0 + n / 64 && b[1] as int == 0x80 + n % 64;
    assert (b[0] as int - 0xC0) * 64 + (b[1] as int - 0x80) == n;
  }

  lemma DecodeThree(c: char, tail: Bytes)
    requires 0x800 <= c as int < 0x10000
    ensures DecodeChar(Utf8(c) + tail) == Some((c, 3))
  {
    var n := c as int;
    var b := Utf8(c) + tail;
    SixBitDigits(n);
    assert b[0] as int == 0xE0 + n / 4096 && b[1] as int == 0x80 + n / 64 % 64 && b[2] as int == 0x80 + n % 64;
    assert (b[0] as int - 0xE0) * 4096 + (b[1] as int - 0x80) * 64 + (b[2] as int - 0x80) == n;
  }

  lemma DecodeFour(c: char, tail: Bytes)
    requires 0x10000 <= c as int
    ensures DecodeChar(Utf8(c) + tail) == Some((c, 4))
  {
    var n := c as int;
    var b := Utf8(c) + tail;
    SixBitDigits(n);
    assert b[0] as int == 0xF0 + n / 262144 && b[1] as int == 0x80 + n / 4096 % 64;
    assert b[2] as int == 0x80 + n / 64 % 64 && b[3] as int == 0x80 + n % 64;
    assert (b[0] as int - 0xF0) * 262144 + (b[1] as int - 0x80) * 4096
           + (b[2] as int - 0x80) * 64 + (b[3] as int - 0x80) == n;
  }

  /** n in base 64: the digits the multi-byte forms carry put n back together. */
  lemma SixBitDigits(n: nat)
    ensures n == n / 4096 * 4096 + n / 64 % 64 * 64 + n % 64
    ensures n == n / 262144 * 262144 + n / 4096 % 64 * 4096 + n / 64 % 64 * 64 + n % 64
  {
    var a, d := n / 64, n % 64;
    assert n == 64 * a + d;
    assert a / 64 == n / 4096;
    assert a / 64 / 64 == n / 262144;
  }

  /** Text written in text mode reads back as the same text. */
  lemma {:induction false} DecodeEncode(s: string)
    ensures DecodeText(EncodeText(s)) == Some(s)
  {
    if s != [] {
      var b := EncodeText(s);
      var tail := EncodeText(s[1..]);
      assert b == Utf8(s[0]) + tail;
      DecodeUtf8(s[0], tail);
      assert b[|Utf8(s[0])|..] == tail;
      DecodeEncode(s[1..]);
      assert DecodeText(b) == Some([s[0]] + s[1..]);
      assert [s[0]] + s[1..] == s;
    }
  }
}
