/** Interface names as they cross into the kernel: a 128-byte NUL-padded key and ten codes. */
module BinderKeys {
  import opened Common

  type Byte = b: int | 0 <= b < 256

  /** The bytes of a Rust `String`. */
  type Name = seq<Byte>

  const MAX_STRING_LENGTH: nat := 128
  const MAX_CODES: nat := 10

  function Zeros(n: nat): seq<Byte> {
    seq(n, _ => 0)
  }

  type Key = k: seq<Byte> | |k| == MAX_STRING_LENGTH witness Zeros(MAX_STRING_LENGTH)

  type Codes = c: seq<nat> | |c| == MAX_CODES witness seq(MAX_CODES, _ => 0)

  // ----- UTF-8, as `CStr::to_str` checks it -----

  predicate In(b: Byte, lo: int, hi: int) {
    lo <= b <= hi
  }

  /** The length of the well-formed character that starts `s`, or 0 if there is none. */
  function CharLength(s: seq<Byte>): (n: nat)
    ensures n <= |s| && n <= 4
  {
    if s == [] then 0
    else if s[0] < 0x80 then 1
    else if |s| >= 2 && In(s[0], 0xC2, 0xDF) && In(s[1], 0x80, 0xBF) then 2
    else if |s| >= 3 && In(s[2], 0x80, 0xBF) &&
            (|| (s[0] == 0xE0 && In(s[1], 0xA0, 0xBF))
             || ((In(s[0], 0xE1, 0xEC) || In(s[0], 0xEE, 0xEF)) && In(s[1], 0x80, 0xBF))
             || (s[0] == 0xED && In(s[1], 0x80, 0x9F))) then 3
    else if |s| >= 4 && In(s[2], 0x80, 0xBF) && In(s[3], 0x80, 0xBF) &&
            (|| (s[0] == 0xF0 && In(s[1], 0x90, 0xBF))
             || (In(s[0], 0xF1, 0xF3) && In(s[1], 0x80, 0xBF))
             || (s[0] == 0xF4 && In(s[1], 0x80, 0x8F))) then 4
    else 0
  }

  predicate ValidUtf8(s: seq<Byte>) {
    s == [] || (CharLength(s) > 0 && ValidUtf8(s[CharLength(s)..]))
  }

  // ----- decoding -----

  predicate NulFree(s: seq<Byte>) {
    forall i :: 0 <= i < |s| ==> s[i] != 0
  }

  /** The index of the first NUL, or the length when there is none. */
  function FirstNul(s: seq<Byte>): (n: nat)
    ensures n <= |s| && NulFree(s[..n])
    ensures n < |s| ==> s[n] == 0
  {
    if s == [] || s[0] == 0 then 0
    else
      var n := FirstNul(s[1..]);
      assert s[..n + 1] == [s[0]] + s[1..][..n];
      n + 1
  }

  function BytesAsStr(bytes: seq<Byte>): Result<Name> {
    var n := FirstNul(bytes);
    if n == |bytes| || !ValidUtf8(bytes[..n]) then Err else Ok(bytes[..n])
  }

  function BytesAsNonemptyStr(bytes: seq<Byte>): Result<Name> {
    match BytesAsStr(bytes)
    case Ok(name) => if name == [] then Err else Ok(name)
    case Err => Err
  }

  function FromCKey(key: Key): Name {
    match BytesAsStr(key)
    case Ok(name) => name
    case Err => []
  }

  // ----- encoding -----

  function ToCKey(name: Name): (key: Key)
    ensures forall i :: 0 <= i < MAX_STRING_LENGTH ==> key[i] == if i < |name| then name[i] else 0
  {
    var len := Min(|name|, MAX_STRING_LENGTH);
    name[..len] + Zeros(MAX_STRING_LENGTH - len)
  }

  function ToCValue(ids: seq<nat>): (codes: Codes)
    ensures forall i :: 0 <= i < MAX_CODES ==> codes[i] == if i < |ids| then ids[i] else 0
  {
    var len := Min(|ids|, MAX_CODES);
    ids[..len] + seq(MAX_CODES - len, _ => 0)
  }

  // ----- which names survive the trip -----

  predicate CanonicalName(name: Name) {
    |name| < MAX_STRING_LENGTH && NulFree(name) && ValidUtf8(name)
  }

  /** A key that decoding and re-encoding restores, so that `delete(from_c_key(k))` deletes `k`. */
  predicate CanonicalKey(key: Key) {
    ToCKey(FromCKey(key)) == key
  }

  lemma {:induction false} FirstNulIs(s: seq<Byte>, n: nat)
    requires n < |s| && s[n] == 0 && NulFree(s[..n])
    ensures FirstNul(s) == n
  {
  }

  /** A key that is `w` padded with NULs decodes to `w` when `w` is well-formed, and to nothing otherwise. */
  lemma {:induction false} DecodePadded(w: Name)
    requires |w| < MAX_STRING_LENGTH && NulFree(w)
    ensures BytesAsStr(ToCKey(w)) == if ValidUtf8(w) then Ok(w) else Err
  {
    var key := ToCKey(w);
    assert key[..|w|] == w;
    FirstNulIs(key, |w|);
  }

  lemma {:induction false} NameRoundTrip(name: Name)
    requires CanonicalName(name)
    ensures FromCKey(ToCKey(name)) == name
    ensures CanonicalKey(ToCKey(name))
  {
    DecodePadded(name);
  }

  lemma {:induction false} DecodedIsCanonical(key: Key)
    ensures CanonicalName(FromCKey(key))
  {
    var n := FirstNul(key);
    if BytesAsStr(key).Ok? {
      assert key[..n] == FromCKey(key);
    }
  }

  /** The canonical keys are exactly the encodings of canonical names. */
  lemma {:induction false} CanonicalKeyIff(key: Key)
    ensures CanonicalKey(key) <==> exists name :: CanonicalName(name) && ToCKey(name) == key
  {
    if CanonicalKey(key) {
      DecodedIsCanonical(key);
      var name := FromCKey(key);
      assert CanonicalName(name) && ToCKey(name) == key;
    } else if name :| CanonicalName(name) && ToCKey(name) == key {
      NameRoundTrip(name);
      assert false;
    }
  }

  // ----- the same, said of the name -----

  /** As far as a key shows it, the name is a string followed by nothing but NULs. */
  predicate Restorable(name: Name) {
    var f := FirstNul(name);
    f < MAX_STRING_LENGTH && forall i :: f <= i < |name| && i < MAX_STRING_LENGTH ==> name[i] == 0
  }

  lemma {:induction false} CharLengthPrefix(s: seq<Byte>, f: nat)
    requires f <= |s| && 0 < CharLength(s) <= f
    ensures CharLength(s[..f]) == CharLength(s)
  {
  }

  lemma {:induction false} CharHasNoNul(s: seq<Byte>)
    requires s != [] && s[0] != 0
    ensures CharLength(s) <= FirstNul(s)
  {
    assert forall i :: 0 <= i < CharLength(s) ==> s[i] != 0;
  }

  /** Cutting a string at its first NUL cuts between characters. */
  lemma {:induction false} Utf8UpToNul(s: seq<Byte>)
    requires ValidUtf8(s)
    ensures ValidUtf8(s[..FirstNul(s)])
    decreases |s|
  {
    var f := FirstNul(s);
    if f > 0 {
      var n := CharLength(s);
      CharHasNoNul(s);
      assert s[n..][..f - n] == s[..f][n..];
      if f < |s| {
        FirstNulIs(s[n..], f - n);
      } else {
        assert s[..f] == s;
      }
      Utf8UpToNul(s[n..]);
      if f < |s| {
        CharLengthPrefix(s, f);
      }
    }
  }

  lemma {:induction false} RestorableIsCanonical(name: Name)
    requires ValidUtf8(name) && Restorable(name)
    ensures CanonicalKey(ToCKey(name))
  {
    var w := name[..FirstNul(name)];
    Utf8UpToNul(name);
    assert ToCKey(w) == ToCKey(name);
    NameRoundTrip(w);
  }

  lemma {:induction false} CanonicalIsRestorable(name: Name)
    requires CanonicalKey(ToCKey(name))
    ensures Restorable(name)
  {
    var key := ToCKey(name);
    var w := FromCKey(key);
    DecodedIsCanonical(key);
    forall i | 0 <= i < |w|
      ensures i < |name| && name[i] == w[i]
    {
      assert key[i] == ToCKey(w)[i];
    }
    if |w| > 0 {
      assert key[|w| - 1] == ToCKey(w)[|w| - 1];
    }
    assert name[..|w|] == w;
    forall i | |w| <= i < |name| && i < MAX_STRING_LENGTH
      ensures name[i] == 0
    {
      assert key[i] == ToCKey(w)[i];
    }
    if |w| < |name| {
      FirstNulIs(name, |w|);
    }
  }

  /**
  Which names can be drained again: exactly those that end before byte 128 and have no NUL but at
  their end. A name with a NUL inside gets stuck, and so does one without a NUL in its first 128 bytes.
  */
  lemma {:induction false} RestorableIff(name: Name)
    requires ValidUtf8(name)
    ensures CanonicalKey(ToCKey(name)) <==> Restorable(name)
  {
    if Restorable(name) {
      RestorableIsCanonical(name);
    } else if CanonicalKey(ToCKey(name)) {
      CanonicalIsRestorable(name);
    }
  }

  lemma {:induction false} LongNameIsStuck(name: Name)
    requires NulFree(name) && |name| >= MAX_STRING_LENGTH
    ensures !CanonicalKey(ToCKey(name))
  {
    if CanonicalKey(ToCKey(name)) {
      CanonicalIsRestorable(name);
    }
  }
}
