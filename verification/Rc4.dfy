/**
 Decrypting saved Xshell passwords: RC4 in place on a 256-cell state array, and the checksum that newer session
 files append. The hashes, base64 and character encodings are parameters.
 */
module Rc4 {
  import opened Wrappers
  import opened Binary

  type State = s: seq<Byte> | |s| == 256 witness seq(256, i => 0)

  // Exclusive or, bit by bit from the low end.
  function XorBits(a: nat, b: nat, width: nat): (r: nat) {
    if width == 0 then 0 else (a % 2 + b % 2) % 2 + 2 * XorBits(a / 2, b / 2, width - 1)
  }

  function PowerOfTwo(width: nat): nat {
    if width == 0 then 1 else 2 * PowerOfTwo(width - 1)
  }

  lemma {:induction false} XorBitsIsBounded(a: nat, b: nat, width: nat)
    ensures XorBits(a, b, width) < PowerOfTwo(width)
  {
    if width > 0 {
      XorBitsIsBounded(a / 2, b / 2, width - 1);
    }
  }

  lemma BitsOf(bit: nat, rest: nat)
    requires bit < 2
    ensures (bit + 2 * rest) % 2 == bit && (bit + 2 * rest) / 2 == rest
  {
  }

  lemma HalfIsSmaller(a: nat, bound: nat)
    requires a < 2 * bound
    ensures a / 2 < bound
  {
  }

  lemma BitCancels(a: nat, b: nat)
    requires a < 2 && b < 2
    ensures ((a + b) % 2 + b) % 2 == a
  {
  }

  // The low bit and the rest of an exclusive or.
  lemma {:induction false} XorBitsUnfold(a: nat, b: nat, width: nat)
    requires width > 0
    ensures XorBits(a, b, width) % 2 == (a % 2 + b % 2) % 2
    ensures XorBits(a, b, width) / 2 == XorBits(a / 2, b / 2, width - 1)
  {
    BitsOf((a % 2 + b % 2) % 2, XorBits(a / 2, b / 2, width - 1));
  }

  lemma SameBits(a: nat, b: nat)
    requires a % 2 == b % 2 && a / 2 == b / 2
    ensures a == b
  {
  }

  lemma {:induction false} XorBitsCancels(a: nat, b: nat, width: nat)
    requires a < PowerOfTwo(width)
    ensures XorBits(XorBits(a, b, width), b, width) == a
  {
    if width > 0 {
      var once := XorBits(a, b, width);
      HalfIsSmaller(a, PowerOfTwo(width - 1));
      XorBitsCancels(a / 2, b / 2, width - 1);
      XorBitsUnfold(a, b, width);
      XorBitsUnfold(once, b, width);
      BitCancels(a % 2, b % 2);
      SameBits(XorBits(once, b, width), a);
    }
  }

  function Xor(a: Byte, b: Byte): Byte {
    XorBitsIsBounded(a, b, 8);
    assert PowerOfTwo(8) == 256;
    XorBits(a, b, 8)
  }

  lemma XorCancels(a: Byte, b: Byte)
    ensures Xor(Xor(a, b), b) == a
  {
    assert PowerOfTwo(8) == 256;
    XorBitsCancels(a, b, 8);
  }

  function Bit(x: nat, k: nat): nat {
    if k == 0 then x % 2 else Bit(x / 2, k - 1)
  }

  lemma {:induction false} XorBitsAt(a: nat, b: nat, width: nat, k: nat)
    requires k < width
    ensures Bit(XorBits(a, b, width), k) == if Bit(a, k) == Bit(b, k) then 0 else 1
  {
    XorBitsUnfold(a, b, width);
    if k > 0 {
      XorBitsAt(a / 2, b / 2, width - 1, k - 1);
    }
  }

  /** A bit of an exclusive or is set exactly if it is set in one of the two bytes. */
  lemma XorIsBitwise(a: Byte, b: Byte, k: nat)
    requires k < 8
    ensures Bit(Xor(a, b), k) == if Bit(a, k) == Bit(b, k) then 0 else 1
  {
    XorBitsAt(a, b, 8, k);
  }

  // ---------- the keystream as a function of key and position ----------

  function Swap(s: State, i: Byte, j: Byte): State {
    s[i := s[j]][j := s[i]]
  }

  function Identity(): State {
    seq(256, i requires 0 <= i < 256 => i)
  }

  // State and index after the first n rounds of key scheduling.
  function Schedule(key: Bytes, n: nat): (State, Byte)
    requires |key| > 0 && n <= 256
  {
    if n == 0 then (Identity(), 0)
    else
      var (s, j) := Schedule(key, n - 1);
      var j' := (j as int + s[n - 1] as int + key[(n - 1) % |key|] as int) % 256;
      (Swap(s, n - 1, j'), j')
  }

  // State and the two indices after n output bytes.
  function Generate(key: Bytes, n: nat): (State, Byte, Byte)
    requires |key| > 0
  {
    if n == 0 then (Schedule(key, 256).0, 0, 0)
    else
      var (s, i, j) := Generate(key, n - 1);
      var i' := (i + 1) % 256;
      var j' := (j as int + s[i'] as int) % 256;
      (Swap(s, i', j'), i', j')
  }

  function KeyByte(key: Bytes, index: nat): Byte
    requires |key| > 0
  {
    var (s, i, j) := Generate(key, index + 1);
    s[(s[i] as int + s[j] as int) % 256]
  }

  function Rc4Spec(key: Bytes, payload: Bytes): (output: Bytes)
    requires |key| > 0
    ensures |output| == |payload|
  {
    seq(|payload|, k requires 0 <= k < |payload| => Xor(payload[k], KeyByte(key, k)))
  }

  method SwapCells(state: array<Byte>, i: Byte, j: Byte)
    requires state.Length == 256
    modifies state
    ensures state[..] == Swap(old(state[..]), i, j)
    ensures state[i] == old(state[j]) && state[j] == old(state[i])
    ensures forall k :: 0 <= k < 256 && k != i && k != j ==> state[k] == old(state[k])
  {
    var current := state[i];
    state[i] := state[j];
    state[j] := current;
  }

  lemma ScheduleStep(key: Bytes, n: nat, s: State, j: Byte)
    requires |key| > 0 && n < 256 && Schedule(key, n) == (s, j)
    ensures var j' := (j as int + s[n] as int + key[n % |key|] as int) % 256; Schedule(key, n + 1) == (Swap(s, n, j'), j')
  {
  }

  // The first two loops: fill the array, then mix the key into it.
  method ScheduleKey(key: Bytes) returns (state: array<Byte>)
    requires |key| > 0
    ensures fresh(state) && state.Length == 256 && state[..] == Schedule(key, 256).0
  {
    state := new Byte[256];
    for index := 0 to 256
      invariant forall k :: 0 <= k < index ==> state[k] == k
    {
      state[index] := index;
    }
    assert state[..] == Identity();

    var j: Byte := 0;
    for index := 0 to 256
      invariant Schedule(key, index) == (state[..], j)
    {
      ScheduleStep(key, index, state[..], j);
      j := (j as int + state[index] as int + key[index % |key|] as int) % 256;
      SwapCells(state, index, j);
    }
  }

  // One round of the third loop: move the indices, swap, and read the next key byte.
  method NextKeyByte(state: array<Byte>, i: Byte, j: Byte, ghost key: Bytes, ghost index: nat)
    returns (i': Byte, j': Byte, keyByte: Byte)
    requires |key| > 0 && state.Length == 256 && Generate(key, index) == (state[..], i, j)
    modifies state
    ensures Generate(key, index + 1) == (state[..], i', j') && keyByte == KeyByte(key, index)
  {
    i' := (i + 1) % 256;
    j' := (j as int + state[i'] as int) % 256;
    SwapCells(state, i', j');
    keyByte := state[(state[i'] as int + state[j'] as int) % 256];
  }

  // The third loop masks one payload byte per round.
  method ApplyRc4(key: Bytes, payload: Bytes) returns (output: array<Byte>)
    requires |key| > 0
    ensures fresh(output) && output[..] == Rc4Spec(key, payload)
  {
    var state := ScheduleKey(key);
    var i: Byte, j: Byte, keyByte: Byte := 0, 0, 0;
    output := new Byte[|payload|];
    for index := 0 to |payload|
      invariant Generate(key, index) == (state[..], i, j)
      invariant output[..index] == Rc4Spec(key, payload[..index])
    {
      i, j, keyByte := NextKeyByte(state, i, j, key, index);
      Rc4Extends(key, payload, index);
      output[index] := Xor(payload[index], keyByte);
    }
    assert payload[..|payload|] == payload && output[..|payload|] == output[..];
  }

  lemma Rc4Extends(key: Bytes, payload: Bytes, n: nat)
    requires |key| > 0 && n < |payload|
    ensures Rc4Spec(key, payload[..n + 1]) == Rc4Spec(key, payload[..n]) + [Xor(payload[n], KeyByte(key, n))]
  {
  }

  // ---------- the rounds ----------

  // The two states differ by an exchange of the cells i and j.
  ghost predicate Exchanged(before: State, after: State, i: Byte, j: Byte) {
    && after[i] == before[j] && after[j] == before[i]
    && forall k :: 0 <= k < 256 && k != i && k != j ==> after[k] == before[k]
  }

  lemma SwapExchanges(s: State, i: Byte, j: Byte)
    ensures Exchanged(s, Swap(s, i, j), i, j)
  {
  }

  /**
   Key scheduling starts from the identity, and round n exchanges cell n with the one that the index moves to; the
   distance it moves is the cell plus the key byte in turn.
   */
  lemma {:induction false} ScheduleRound(key: Bytes, n: nat)
    requires |key| > 0 && n < 256
    ensures Schedule(key, 0).1 == 0 && forall k :: 0 <= k < 256 ==> Schedule(key, 0).0[k] == k
    ensures var (s, j), (t, j') := Schedule(key, n), Schedule(key, n + 1);
            j' == (j as int + s[n] as int + key[n % |key|] as int) % 256 && Exchanged(s, t, n, j')
  {
    SwapExchanges(Schedule(key, n).0, n, Schedule(key, n + 1).1);
  }

  /**
   Each output byte moves the first index by one and the second by the cell found there, exchanges the two cells, and is
   the cell at the sum of the two.
   */
  lemma {:induction false} GenerateRound(key: Bytes, n: nat)
    requires |key| > 0
    ensures Generate(key, 0) == (Schedule(key, 256).0, 0, 0)
    ensures var (s, i, j), (t, i', j') := Generate(key, n), Generate(key, n + 1);
            && i' == (i + 1) % 256 && j' == (j as int + s[i'] as int) % 256 && Exchanged(s, t, i', j')
            && KeyByte(key, n) == t[(s[i'] as int + s[j'] as int) % 256]
  {
    SwapExchanges(Generate(key, n).0, Generate(key, n + 1).1, Generate(key, n + 1).2);
  }

  lemma BitIsBinary(x: nat, k: nat)
    ensures Bit(x, k) == 0 || Bit(x, k) == 1
  {
  }

  /** A bit of the n-th output byte is that of the payload, turned over exactly where the n-th key byte has a bit set. */
  lemma OutputIsMasked(key: Bytes, payload: Bytes, n: nat, k: nat)
    requires |key| > 0 && n < |payload| && k < 8
    ensures Bit(Rc4Spec(key, payload)[n], k) == if Bit(KeyByte(key, n), k) == 0 then Bit(payload[n], k) else 1 - Bit(payload[n], k)
  {
    XorIsBitwise(payload[n], KeyByte(key, n), k);
    BitIsBinary(payload[n], k);
    BitIsBinary(KeyByte(key, n), k);
  }

  // ---------- the state array stays a permutation ----------

  ghost predicate IsPermutation(s: State) {
    && (forall i, j :: 0 <= i < j < 256 ==> s[i] != s[j])
    && (forall v: Byte :: v in s)
  }

  lemma SwapKeepsPermutation(s: State, i: Byte, j: Byte)
    requires IsPermutation(s)
    ensures IsPermutation(Swap(s, i, j))
  {
    var t := Swap(s, i, j);
    forall v: Byte ensures v in t {
      assert v in s;
      var k: nat :| k < |s| && s[k] == v;
      assert t[if k == i then j else if k == j then i else k] == v;
    }
  }

  /** Both loops only swap, so the state is a permutation of 0..255 at every step. */
  lemma {:induction false} ScheduleIsPermutation(key: Bytes, n: nat)
    requires |key| > 0 && n <= 256
    ensures IsPermutation(Schedule(key, n).0)
  {
    if n == 0 {
      forall v: Byte ensures v in Identity() {
        assert Identity()[v] == v;
      }
    } else {
      ScheduleIsPermutation(key, n - 1);
      var (s, j) := Schedule(key, n - 1);
      SwapKeepsPermutation(s, n - 1, (j as int + s[n - 1] as int + key[(n - 1) % |key|] as int) % 256);
    }
  }

  lemma {:induction false} GenerateIsPermutation(key: Bytes, n: nat)
    requires |key| > 0
    ensures IsPermutation(Generate(key, n).0)
  {
    if n == 0 {
      ScheduleIsPermutation(key, 256);
    } else {
      GenerateIsPermutation(key, n - 1);
      var (s, i, j) := Generate(key, n - 1);
      SwapKeepsPermutation(s, (i + 1) % 256, (j as int + s[(i + 1) % 256] as int) % 256);
    }
  }

  /** RC4 with the same key twice is the identity. */
  lemma Rc4IsInvolution(key: Bytes, payload: Bytes)
    requires |key| > 0
    ensures Rc4Spec(key, Rc4Spec(key, payload)) == payload
  {
    var once := Rc4Spec(key, payload);
    forall k | 0 <= k < |payload| ensures Rc4Spec(key, once)[k] == payload[k] {
      XorCancels(payload[k], KeyByte(key, k));
    }
  }

  // ---------- decrypting a password ----------

  const PASSWORD_CHECKSUM_LENGTH := 32

  datatype FailureReason = InvalidCiphertext | InvalidVersion | MasterPasswordEnabled | MissingSecurityContext | ChecksumMismatch

  datatype SecurityContext = SecurityContext(sid: string, username: string)

  // encryptedBytes is None when the text is empty or not base64; version is None when it is absent or not positive.
  datatype DecryptInput = DecryptInput(
    encryptedBytes: Option<Bytes>,
    version: Option<real>,
    masterPasswordEnabled: bool,
    securityContext: Option<SecurityContext>)

  // The MD5 of the fixed legacy key, and SHA-256 of a text in either encoding and of bytes.
  datatype Hashes = Hashes(legacyKey: Bytes, ofUtf8: string -> Bytes, ofAscii: string -> Bytes, ofBytes: Bytes -> Bytes)

  ghost predicate ValidHashes(hashes: Hashes) {
    && |hashes.legacyKey| == 16
    && (forall text :: |hashes.ofUtf8(text)| == PASSWORD_CHECKSUM_LENGTH)
    && (forall text :: |hashes.ofAscii(text)| == PASSWORD_CHECKSUM_LENGTH)
    && (forall bytes :: |hashes.ofBytes(bytes)| == PASSWORD_CHECKSUM_LENGTH)
  }

  function Reverse(s: string): string {
    if s == "" then "" else Reverse(s[1..]) + [s[0]]
  }

  function BuildRc4Key(hashes: Hashes, version: real, context: Option<SecurityContext>): Option<Bytes> {
    if version < 5.1 then Some(hashes.legacyKey)
    else if context.None? then None
    else if version <= 5.2 then Some(hashes.ofUtf8(context.value.sid))
    else Some(hashes.ofAscii(Reverse(context.value.sid) + context.value.username))
  }

  method DecryptXshellPassword(hashes: Hashes, input: DecryptInput) returns (r: Result<Bytes, FailureReason>)
    requires ValidHashes(hashes)
    ensures r == DecryptSpec(hashes, input)
  {
    if input.masterPasswordEnabled {
      return Err(MasterPasswordEnabled);
    }
    if input.version.None? {
      return Err(InvalidVersion);
    }
    if input.encryptedBytes.None? {
      return Err(InvalidCiphertext);
    }
    var encryptedBytes := input.encryptedBytes.value;
    var rc4Key := BuildRc4Key(hashes, input.version.value, input.securityContext);
    if rc4Key.None? {
      return Err(MissingSecurityContext);
    }
    if input.version.value < 5.1 {
      var password := ApplyRc4(rc4Key.value, encryptedBytes);
      return Ok(password[..]);
    }
    if |encryptedBytes| <= PASSWORD_CHECKSUM_LENGTH {
      return Err(InvalidCiphertext);
    }
    var ciphertext := encryptedBytes[..|encryptedBytes| - PASSWORD_CHECKSUM_LENGTH];
    var checksum := encryptedBytes[|encryptedBytes| - PASSWORD_CHECKSUM_LENGTH..];
    var plaintext := ApplyRc4(rc4Key.value, ciphertext);
    var expectedChecksum := hashes.ofBytes(plaintext[..]);
    if checksum != expectedChecksum {
      return Err(ChecksumMismatch);
    }
    return Ok(plaintext[..]);
  }

  ghost function DecryptSpec(hashes: Hashes, input: DecryptInput): Result<Bytes, FailureReason>
    requires ValidHashes(hashes)
  {
    if input.masterPasswordEnabled then Err(MasterPasswordEnabled)
    else if input.version.None? then Err(InvalidVersion)
    else if input.encryptedBytes.None? then Err(InvalidCiphertext)
    else
      var key := BuildRc4Key(hashes, input.version.value, input.securityContext);
      var bytes := input.encryptedBytes.value;
      if key.None? then Err(MissingSecurityContext)
      else if input.version.value < 5.1 then Ok(Rc4Spec(key.value, bytes))
      else if |bytes| <= PASSWORD_CHECKSUM_LENGTH then Err(InvalidCiphertext)
      else
        var plaintext := Rc4Spec(key.value, bytes[..|bytes| - PASSWORD_CHECKSUM_LENGTH]);
        if bytes[|bytes| - PASSWORD_CHECKSUM_LENGTH..] != hashes.ofBytes(plaintext) then Err(ChecksumMismatch)
        else Ok(plaintext)
  }

  // What a session file of the given version stores for a password.
  ghost function Encrypted(hashes: Hashes, key: Bytes, version: real, password: Bytes): Bytes
    requires |key| > 0
  {
    Rc4Spec(key, password) + (if version < 5.1 then [] else hashes.ofBytes(password))
  }

  /**
   With a usable version and key, decryption returns a password exactly on that password's own encryption (and,
   from version 5.1 on, only if the password is not empty); every other text is rejected.
   */
  lemma DecryptInvertsEncrypt(hashes: Hashes, input: DecryptInput, password: Bytes)
    requires ValidHashes(hashes)
    requires !input.masterPasswordEnabled && input.version.Some? && input.encryptedBytes.Some?
    requires BuildRc4Key(hashes, input.version.value, input.securityContext).Some?
    ensures var key := BuildRc4Key(hashes, input.version.value, input.securityContext).value;
            && |key| > 0
            && (DecryptSpec(hashes, input) == Ok(password) <==>
                  && input.encryptedBytes.value == Encrypted(hashes, key, input.version.value, password)
                  && (input.version.value >= 5.1 ==> password != []))
  {
    var key := BuildRc4Key(hashes, input.version.value, input.securityContext).value;
    var bytes := input.encryptedBytes.value;
    var encrypted := Encrypted(hashes, key, input.version.value, password);
    Rc4IsInvolution(key, password);
    if input.version.value < 5.1 {
      Rc4IsInvolution(key, bytes);
      assert encrypted == Rc4Spec(key, password);
    } else if |bytes| > PASSWORD_CHECKSUM_LENGTH {
      var front, tail := bytes[..|bytes| - PASSWORD_CHECKSUM_LENGTH], bytes[|bytes| - PASSWORD_CHECKSUM_LENGTH..];
      Rc4IsInvolution(key, front);
      assert bytes == front + tail;
      if bytes == encrypted {
        assert |front| == |password|;
        assert front == encrypted[..|password|] && tail == encrypted[|password|..];
      }
    }
  }

  // ---------- which key, and which failure ----------

  lemma {:induction false} ReverseAt(s: string, i: nat)
    requires i < |s|
    ensures |Reverse(s)| == |s| && Reverse(s)[i] == s[|s| - 1 - i]
  {
    if |s| > 1 {
      ReverseAt(s[1..], if i < |s| - 1 then i else 0);
    }
  }

  // The security identifier backwards, followed by the user name.
  ghost predicate IsReversedThen(text: string, sid: string, username: string) {
    && |text| == |sid| + |username|
    && (forall i :: 0 <= i < |sid| ==> text[i] == sid[|sid| - 1 - i])
    && (forall i :: 0 <= i < |username| ==> text[|sid| + i] == username[i])
  }

  lemma {:induction false} ReversedThenIsUnique(text: string, sid: string, username: string)
    requires IsReversedThen(text, sid, username)
    ensures text == Reverse(sid) + username
  {
    var reversed := Reverse(sid);
    if sid != "" {
      ReverseAt(sid, 0);
    }
    forall i | 0 <= i < |sid| ensures reversed[i] == text[i] {
      ReverseAt(sid, i);
    }
    assert text[..|sid|] == reversed;
    assert text[|sid|..] == username;
  }

  /**
   Below version 5.1 the key is the fixed one; from then on it needs the security context, and is the hash of the
   identifier up to version 5.2 and after that the hash of the reversed identifier and the user name.
   */
  lemma KeyByVersion(hashes: Hashes, version: real, sid: string, username: string, text: string)
    requires IsReversedThen(text, sid, username)
    ensures version < 5.1 ==> forall context :: BuildRc4Key(hashes, version, context) == Some(hashes.legacyKey)
    ensures 5.1 <= version ==> BuildRc4Key(hashes, version, None) == None
    ensures 5.1 <= version <= 5.2 ==>
      BuildRc4Key(hashes, version, Some(SecurityContext(sid, username))) == Some(hashes.ofUtf8(sid))
    ensures 5.2 < version ==>
      BuildRc4Key(hashes, version, Some(SecurityContext(sid, username))) == Some(hashes.ofAscii(text))
  {
    ReversedThenIsUnique(text, sid, username);
  }

  // The text is too short to hold a checksum and a password.
  predicate TooShort(version: real, bytes: Bytes) {
    version >= 5.1 && |bytes| <= 32
  }

  /** Each failure but a wrong checksum is given exactly in its case. */
  lemma FailuresAreExact(hashes: Hashes, input: DecryptInput)
    requires ValidHashes(hashes)
    ensures var r := DecryptSpec(hashes, input);
            var missing := input.version.Some? && input.version.value >= 5.1 && input.securityContext.None?;
            && (r == Err(MasterPasswordEnabled) <==> input.masterPasswordEnabled)
            && (r == Err(InvalidVersion) <==> !input.masterPasswordEnabled && input.version.None?)
            && (r == Err(MissingSecurityContext) <==> !input.masterPasswordEnabled && input.encryptedBytes.Some? && missing)
            && (r == Err(InvalidCiphertext) <==>
                  && !input.masterPasswordEnabled && input.version.Some?
                  && (input.encryptedBytes.None? || (!missing && TooShort(input.version.value, input.encryptedBytes.value))))
  {
  }
}
