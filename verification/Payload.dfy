/** The byte strings that are hashed and signed: token-id preimages, role batches and revocation
    batches. Each is read back by a parser, so distinct contents never share a payload. */
module Payload {
  import opened Base

  /** A 20-byte account address. */
  type Address = x: int | 0 <= x < ADDRESS_LIMIT
  const ADDRESS_LIMIT: int := 0x1_0000_0000_0000_0000_0000_0000_0000_0000_0000_0000

  /** Big-endian digits in base 256. */
  function BigEndian(value: nat, width: nat): (r: seq<byte>)
    ensures |r| == width
    decreases width
  {
    if width == 0 then [] else BigEndian(value / 256, width - 1) + [value % 256]
  }

  function Value(bytes: seq<byte>): nat {
    if bytes == [] then 0 else Value(bytes[..|bytes| - 1]) * 256 + bytes[|bytes| - 1]
  }

  function Pow256(n: nat): nat {
    if n == 0 then 1 else 256 * Pow256(n - 1)
  }

  /** Padding loses nothing exactly when the number fits the field. */
  lemma {:induction false} BigEndianReadsBack(value: nat, width: nat)
    ensures Value(BigEndian(value, width)) == value <==> value < Pow256(width)
    ensures value < Pow256(width) ==> Value(BigEndian(value, width)) == value
    decreases width
  {
    if width != 0 {
      BigEndianReadsBack(value / 256, width - 1);
      var r := BigEndian(value, width);
      assert r[..|r| - 1] == BigEndian(value / 256, width - 1);
      assert value == (value / 256) * 256 + value % 256;
      ValueBound(BigEndian(value, width));
    }
  }

  lemma {:induction false} ValueBound(bytes: seq<byte>)
    ensures Value(bytes) < Pow256(|bytes|)
  {
    if bytes != [] {
      ValueBound(bytes[..|bytes| - 1]);
    }
  }

  lemma {:induction false} AddressWidth()
    ensures Pow256(20) == ADDRESS_LIMIT
  {
    assert Pow256(4) == 0x1_0000_0000;
    assert Pow256(8) == 0x1_0000_0000_0000_0000;
    assert Pow256(12) == 0x1_0000_0000_0000_0000_0000_0000;
    assert Pow256(16) == 0x1_0000_0000_0000_0000_0000_0000_0000_0000;
  }

  /** A uint256: nonces and token ids. */
  type Word = x: nat | x < WORD_LIMIT
  const WORD_LIMIT: nat := 0x1_0000_0000_0000_0000_0000_0000_0000_0000_0000_0000_0000_0000_0000_0000_0000_0000

  lemma {:induction false} WordWidth()
    ensures Pow256(32) == WORD_LIMIT
  {
    AddressWidth();
    assert Pow256(24) == 0x1_0000_0000 * ADDRESS_LIMIT;
    assert Pow256(28) == 0x1_0000_0000_0000_0000 * ADDRESS_LIMIT;
  }

  function AddressBytes(a: Address): (r: seq<byte>)
    ensures |r| == 20
  {
    BigEndian(a, 20)
  }

  function WordBytes(w: nat): (r: seq<byte>)
    ensures |r| == 32
  {
    BigEndian(w, 32)
  }

  lemma {:induction false} WordReadsBack(w: Word)
    ensures Value(WordBytes(w)) == w
  {
    WordWidth();
    BigEndianReadsBack(w, 32);
  }

  lemma {:induction false} AddressReadsBack(a: Address)
    ensures Value(AddressBytes(a)) == a
  {
    AddressWidth();
    BigEndianReadsBack(a, 20);
  }

  function TextBytes(s: Ascii): (r: seq<byte>)
    ensures |r| == |s|
  {
    seq(|s|, i requires 0 <= i < |s| => s[i] as int)
  }

  lemma {:induction false} TextBytesInjective(a: Ascii, b: Ascii)
    requires TextBytes(a) == TextBytes(b)
    ensures a == b
  {
    forall i | 0 <= i < |a| ensures a[i] == b[i] {
      assert TextBytes(a)[i] == TextBytes(b)[i];
    }
  }

  // ----- Token ids (registry_service.go) -----

  function TokenPreimage(issuer: Address, nonce: Word, holder: Address, hash: Ascii): seq<byte> {
    AddressBytes(issuer) + WordBytes(nonce) + AddressBytes(holder) + TextBytes(hash)
  }

  function TokenOf(issuer: Address, nonce: Word, holder: Address, hash: Ascii): TokenId {
    Keccak(TokenPreimage(issuer, nonce, holder, hash))
  }

  lemma {:induction false} TokenPreimageFields(issuer: Address, nonce: Word, holder: Address, hash: Ascii)
    ensures var p := TokenPreimage(issuer, nonce, holder, hash);
      |p| >= 72 && Value(p[..20]) == issuer && Value(p[20..52]) == nonce && Value(p[52..72]) == holder
      && p[72..] == TextBytes(hash)
  {
    var p := TokenPreimage(issuer, nonce, holder, hash);
    AddressReadsBack(issuer);
    AddressReadsBack(holder);
    WordReadsBack(nonce);
    assert p[..20] == AddressBytes(issuer);
    assert p[20..52] == WordBytes(nonce);
    assert p[52..72] == AddressBytes(holder);
  }

  /** Two issuances share a token id only when issuer, nonce, holder and file hash all agree. */
  lemma {:induction false} TokenOfInjective(i1: Address, n1: Word, h1: Address, f1: Ascii, i2: Address, n2: Word,
                                            h2: Address, f2: Ascii)
    ensures TokenOf(i1, n1, h1, f1) == TokenOf(i2, n2, h2, f2) <==> i1 == i2 && n1 == n2 && h1 == h2 && f1 == f2
  {
    TokenPreimageFields(i1, n1, h1, f1);
    TokenPreimageFields(i2, n2, h2, f2);
    if TokenOf(i1, n1, h1, f1) == TokenOf(i2, n2, h2, f2) {
      TextBytesInjective(f1, f2);
    }
  }

  // ----- Signed batches (authority_service.go, registry_service.go) -----

  /** Records of one fixed width, one after another. */
  function Concat(records: seq<seq<byte>>): seq<byte> {
    if records == [] then [] else Concat(records[..|records| - 1]) + records[|records| - 1]
  }

  function Split(bytes: seq<byte>, width: nat): seq<seq<byte>>
    requires width > 0
  {
    if |bytes| < width then []
    else Split(bytes[..|bytes| - width], width) + [bytes[|bytes| - width..]]
  }

  /** A whole number of records. */
  predicate Whole(bytes: seq<byte>, width: nat)
    requires width > 0
  {
    bytes == [] || (|bytes| >= width && Whole(bytes[..|bytes| - width], width))
  }

  ghost predicate AllWide(records: seq<seq<byte>>, width: nat) {
    forall i :: 0 <= i < |records| ==> |records[i]| == width
  }

  lemma {:induction false} SplitLast(bytes: seq<byte>, record: seq<byte>)
    requires record != []
    ensures Split(bytes + record, |record|) == Split(bytes, |record|) + [record]
    ensures Whole(bytes + record, |record|) <==> Whole(bytes, |record|)
  {
    var all := bytes + record;
    assert all[..|all| - |record|] == bytes && all[|all| - |record|..] == record;
  }

  lemma {:induction false} SplitReadsBack(records: seq<seq<byte>>, width: nat)
    requires width > 0 && AllWide(records, width)
    ensures Whole(Concat(records), width)
    ensures Split(Concat(records), width) == records
  {
    if records != [] {
      var n := |records| - 1;
      SplitReadsBack(records[..n], width);
      SplitLast(Concat(records[..n]), records[n]);
      assert records[..n] + [records[n]] == records;
    }
  }

  datatype RoleUpdate = RoleUpdate(user: Address, role: byte)

  function RoleRecord(u: RoleUpdate): (r: seq<byte>)
    ensures |r| == 21
  {
    AddressBytes(u.user) + [u.role]
  }

  function RoleRecords(updates: seq<RoleUpdate>): (r: seq<seq<byte>>)
    ensures |r| == |updates| && AllWide(r, 21)
  {
    seq(|updates|, i requires 0 <= i < |updates| => RoleRecord(updates[i]))
  }

  function RolePayload(signer: Address, nonce: Word, updates: seq<RoleUpdate>): seq<byte> {
    AddressBytes(signer) + WordBytes(nonce) + Concat(RoleRecords(updates))
  }

  lemma {:induction false} RoleRecordsSnoc(updates: seq<RoleUpdate>, i: nat)
    requires i < |updates|
    ensures Concat(RoleRecords(updates[..i + 1])) == Concat(RoleRecords(updates[..i])) + RoleRecord(updates[i])
  {
    assert RoleRecords(updates[..i + 1])[..i] == RoleRecords(updates[..i]);
  }

  method PackRoles(signer: Address, nonce: Word, updates: seq<RoleUpdate>) returns (packed: seq<byte>)
    ensures packed == RolePayload(signer, nonce, updates)
  {
    packed := [];
    packed := packed + AddressBytes(signer);
    packed := packed + WordBytes(nonce);
    for i := 0 to |updates|
      invariant packed == RolePayload(signer, nonce, updates[..i])
    {
      ghost var before := packed;
      packed := packed + AddressBytes(updates[i].user);
      packed := packed + [updates[i].role];
      RoleRecordsSnoc(updates, i);
      Assoc(before, AddressBytes(updates[i].user), [updates[i].role]);
      Assoc(AddressBytes(signer) + WordBytes(nonce), Concat(RoleRecords(updates[..i])), RoleRecord(updates[i]));
    }
    assert updates[..|updates|] == updates;
  }

  datatype Batch<T> = Batch(signer: nat, nonce: nat, items: seq<T>)

  function ReadRole(record: seq<byte>): (nat, byte) {
    if |record| == 21 then (Value(record[..20]), record[20]) else (0, 0)
  }

  function ReadRoleRecords(records: seq<seq<byte>>): (r: seq<(nat, byte)>)
    ensures |r| == |records|
  {
    seq(|records|, i requires 0 <= i < |records| => ReadRole(records[i]))
  }

  function ReadRoles(bytes: seq<byte>): Option<Batch<(nat, byte)>> {
    if |bytes| < 52 || !Whole(bytes[52..], 21) then None
    else Some(Batch(Value(bytes[..20]), Value(bytes[20..52]), ReadRoleRecords(Split(bytes[52..], 21))))
  }

  function Pairs(updates: seq<RoleUpdate>): (r: seq<(nat, byte)>)
    ensures |r| == |updates|
  {
    seq(|updates|, i requires 0 <= i < |updates| => (updates[i].user, updates[i].role))
  }

  lemma {:induction false} RoleRecordsReadBack(updates: seq<RoleUpdate>)
    ensures ReadRoleRecords(RoleRecords(updates)) == Pairs(updates)
  {
    forall i | 0 <= i < |updates| ensures ReadRole(RoleRecords(updates)[i]) == Pairs(updates)[i] {
      AddressReadsBack(updates[i].user);
      assert RoleRecord(updates[i])[..20] == AddressBytes(updates[i].user);
    }
  }

  /** A reader recovers signer, nonce and the whole list of role updates, whatever its length. */
  lemma {:induction false} RolesReadBack(signer: Address, nonce: Word, updates: seq<RoleUpdate>)
    ensures ReadRoles(RolePayload(signer, nonce, updates)) == Some(Batch(signer, nonce, Pairs(updates)))
  {
    SplitReadsBack(RoleRecords(updates), 21);
    HeaderReadsBack(signer, nonce, Concat(RoleRecords(updates)));
    RoleRecordsReadBack(updates);
  }

  lemma {:induction false} HeaderReadsBack(signer: Address, nonce: Word, rest: seq<byte>)
    ensures var bytes := AddressBytes(signer) + WordBytes(nonce) + rest;
      Value(bytes[..20]) == signer && Value(bytes[20..52]) == nonce && bytes[52..] == rest
  {
    var bytes := AddressBytes(signer) + WordBytes(nonce) + rest;
    AddressReadsBack(signer);
    WordReadsBack(nonce);
    assert bytes[..20] == AddressBytes(signer);
    assert bytes[20..52] == WordBytes(nonce);
  }

  function WordRecords(tokens: seq<Word>): (r: seq<seq<byte>>)
    ensures |r| == |tokens| && AllWide(r, 32)
  {
    seq(|tokens|, i requires 0 <= i < |tokens| => WordBytes(tokens[i]))
  }

  function RevocationPayload(revoker: Address, nonce: Word, tokens: seq<Word>): seq<byte> {
    AddressBytes(revoker) + WordBytes(nonce) + Concat(WordRecords(tokens))
  }

  lemma {:induction false} WordRecordsSnoc(tokens: seq<Word>, i: nat)
    requires i < |tokens|
    ensures Concat(WordRecords(tokens[..i + 1])) == Concat(WordRecords(tokens[..i])) + WordBytes(tokens[i])
  {
    assert WordRecords(tokens[..i + 1])[..i] == WordRecords(tokens[..i]);
  }

  method PackRevocation(revoker: Address, nonce: Word, tokens: seq<Word>) returns (packed: seq<byte>)
    ensures packed == RevocationPayload(revoker, nonce, tokens)
  {
    packed := [];
    packed := packed + AddressBytes(revoker);
    packed := packed + WordBytes(nonce);
    for i := 0 to |tokens|
      invariant packed == RevocationPayload(revoker, nonce, tokens[..i])
    {
      WordRecordsSnoc(tokens, i);
      Assoc(AddressBytes(revoker) + WordBytes(nonce), Concat(WordRecords(tokens[..i])), WordBytes(tokens[i]));
      packed := packed + WordBytes(tokens[i]);
    }
    assert tokens[..|tokens|] == tokens;
  }

  function ReadWords(records: seq<seq<byte>>): (r: seq<nat>)
    ensures |r| == |records|
  {
    seq(|records|, i requires 0 <= i < |records| => Value(records[i]))
  }

  function ReadRevocation(bytes: seq<byte>): Option<Batch<nat>> {
    if |bytes| < 52 || !Whole(bytes[52..], 32) then None
    else Some(Batch(Value(bytes[..20]), Value(bytes[20..52]), ReadWords(Split(bytes[52..], 32))))
  }

  /** A reader recovers revoker, nonce and every token id of a revocation batch. */
  lemma {:induction false} RevocationReadsBack(revoker: Address, nonce: Word, tokens: seq<Word>)
    ensures var b := ReadRevocation(RevocationPayload(revoker, nonce, tokens));
      b.Some? && b.value.signer == revoker && b.value.nonce == nonce && |b.value.items| == |tokens|
      && forall i :: 0 <= i < |tokens| ==> b.value.items[i] == tokens[i]
  {
    SplitReadsBack(WordRecords(tokens), 32);
    HeaderReadsBack(revoker, nonce, Concat(WordRecords(tokens)));
    forall i | 0 <= i < |tokens| ensures ReadWords(WordRecords(tokens))[i] == tokens[i] {
      WordReadsBack(tokens[i]);
    }
  }
}
