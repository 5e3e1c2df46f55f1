/** Key material (transport.go: generateKeyMaterial; section 7.2 of RFC 4253). The hash function is a parameter. */
module KeyMaterial {
  import opened ByteStrings
  import Mpint

  /** What generateKeyMaterial is given: the exchange's K and H, the session id and the hash. */
  datatype Source = Source(hash: Bytes -> Bytes, k: Bytes, h: Bytes, sessionID: Bytes)

  /** K1 || K2 || ... || Kn, where K1 hashes K, H, the tag and the session id, and every further one hashes K, H
      and all before it. */
  function Stream(s: Source, tag: Bytes, n: nat): Bytes
    decreases n, 0
  {
    if n == 0 then [] else Stream(s, tag, n - 1) + Digest(s, tag, n - 1)
  }

  /** The digest after the first n. */
  function Digest(s: Source, tag: Bytes, n: nat): Bytes
    decreases n, 1
  {
    s.hash(s.k + s.h + if n == 0 then tag + s.sessionID else Stream(s, tag, n))
  }

  /** Every digest has at least one byte. */
  ghost predicate Hashes(s: Source) {
    forall x :: |s.hash(x)| > 0
  }

  lemma {:induction false} StreamLength(s: Source, tag: Bytes, n: nat)
    requires Hashes(s)
    ensures |Stream(s, tag, n)| >= n
  {
    if n > 0 {
      StreamLength(s, tag, n - 1);
    }
  }

  lemma {:induction false} StreamPrefix(s: Source, tag: Bytes, m: nat, n: nat)
    requires m <= n
    ensures Stream(s, tag, m) <= Stream(s, tag, n)
  {
    if m < n {
      StreamPrefix(s, tag, m, n - 1);
    }
  }

  /** The first len bytes of the stream. */
  ghost function Material(s: Source, tag: Bytes, len: nat): (r: Bytes)
    requires Hashes(s)
    ensures |r| == len
  {
    StreamLength(s, tag, len);
    Stream(s, tag, len)[..len]
  }

  /** Any part of the stream that is long enough shows the same bytes. */
  lemma MaterialOf(s: Source, tag: Bytes, len: nat, n: nat)
    requires Hashes(s) && len <= |Stream(s, tag, n)|
    ensures Material(s, tag, len) == Stream(s, tag, n)[..len]
  {
    StreamLength(s, tag, len);
    if n <= len {
      StreamPrefix(s, tag, n, len);
    } else {
      StreamPrefix(s, tag, len, n);
    }
  }

  /** A shorter key is a prefix of a longer one. */
  lemma ShorterIsPrefix(s: Source, tag: Bytes, short: nat, long: nat)
    requires Hashes(s) && short <= long
    ensures Material(s, tag, short) <= Material(s, tag, long)
  {
    StreamLength(s, tag, long);
    MaterialOf(s, tag, short, long);
  }

  /** Fills out, whatever its length, and terminates: each round copies at least one byte. */
  method GenerateKeyMaterial(out: array<byte>, tag: Bytes, s: Source)
    requires Hashes(s)
    modifies out
    ensures out[..] == Material(s, tag, out.Length)
  {
    var digestsSoFar: Bytes := [];
    var at := 0;
    ghost var n := 0;
    while at < out.Length
      invariant at <= out.Length
      invariant at < out.Length ==> digestsSoFar == Stream(s, tag, n) && at == |digestsSoFar|
      invariant at <= |Stream(s, tag, n)| && out[..at] == Stream(s, tag, n)[..at]
      invariant n > 0 && at < out.Length ==> digestsSoFar != []
      decreases out.Length - at
    {
      var input := s.k + s.h;
      if |digestsSoFar| == 0 {
        input := input + (tag + s.sessionID);
      } else {
        input := input + digestsSoFar;
      }
      var digest := s.hash(input);
      assert digest == Digest(s, tag, n);
      at := CopyTo(out, at, digest, Stream(s, tag, n));
      n := n + 1;
      if at < out.Length {
        digestsSoFar := digestsSoFar + digest;
      }
    }
    MaterialOf(s, tag, out.Length, n);
    assert out[..] == out[..at];
  }

  /** copy(out[at:], digest): as much of the digest as there is room for. */
  method CopyTo(out: array<byte>, at: nat, digest: Bytes, ghost before: Bytes) returns (end: nat)
    requires at < out.Length && at == |before| && out[..at] == before && |digest| > 0
    modifies out
    ensures at < end <= out.Length
    ensures end == out.Length || end == |before + digest|
    ensures end <= |before + digest| && out[..end] == (before + digest)[..end]
  {
    var len := if |digest| < out.Length - at then |digest| else out.Length - at;
    end := Mpint.CopyBytes(out, at, digest[..len]);
    assert forall i | 0 <= i < at :: out[i] == before[i];
    assert forall i | at <= i < end :: out[i] == digest[i - at];
  }

  // ----- what is hashed -----

  function Joined(blocks: seq<Bytes>): Bytes {
    if blocks == [] then [] else Joined(blocks[..|blocks| - 1]) + blocks[|blocks| - 1]
  }

  /** Section 7.2 of RFC 4253: the first block hashes K, H, the tag and the session id, and each further one K, H and all blocks
      before it. */
  predicate AreBlocks(s: Source, tag: Bytes, blocks: seq<Bytes>) {
    forall i | 0 <= i < |blocks| ::
      blocks[i] == if i == 0 then s.hash(s.k + s.h + tag + s.sessionID) else s.hash(s.k + s.h + Joined(blocks[..i]))
  }

  lemma JoinedSnoc(blocks: seq<Bytes>, b: Bytes)
    ensures Joined(blocks + [b]) == Joined(blocks) + b
  {
    assert (blocks + [b])[..|blocks|] == blocks;
  }

  lemma {:induction false} StreamIsBlocks(s: Source, tag: Bytes, n: nat) returns (blocks: seq<Bytes>)
    ensures |blocks| == n && AreBlocks(s, tag, blocks) && Stream(s, tag, n) == Joined(blocks)
    decreases n
  {
    hide Joined;
    if n == 0 {
      blocks := [];
      assert Joined([]) == [] by { JoinedNothing(); }
    } else {
      var before := StreamIsBlocks(s, tag, n - 1);
      var d := Digest(s, tag, n - 1);
      blocks := before + [d];
      JoinedSnoc(before, d);
      forall i | 0 <= i < n
        ensures blocks[i] == if i == 0 then s.hash(s.k + s.h + tag + s.sessionID) else s.hash(s.k + s.h + Joined(blocks[..i]))
      {
        if i < n - 1 {
          assert blocks[..i] == before[..i];
        } else {
          assert blocks[..i] == before;
          assert s.k + s.h + (tag + s.sessionID) == s.k + s.h + tag + s.sessionID;
        }
      }
    }
  }

  lemma JoinedNothing()
    ensures Joined([]) == []
  {
  }

  lemma FewerBlocks(s: Source, tag: Bytes, blocks: seq<Bytes>, n: nat)
    requires AreBlocks(s, tag, blocks) && n <= |blocks|
    ensures AreBlocks(s, tag, blocks[..n])
  {
    hide Joined;
    assert forall i | 0 <= i < n :: blocks[..n][..i] == blocks[..i];
  }

  /** There is only one such list of each length. */
  lemma {:induction false} BlocksAreUnique(s: Source, tag: Bytes, a: seq<Bytes>, b: seq<Bytes>)
    requires AreBlocks(s, tag, a) && AreBlocks(s, tag, b) && |a| == |b|
    ensures a == b
    decreases |a|
  {
    hide Joined;
    if a != [] {
      var n := |a| - 1;
      FewerBlocks(s, tag, a, n);
      FewerBlocks(s, tag, b, n);
      BlocksAreUnique(s, tag, a[..n], b[..n]);
      assert a == a[..n] + [a[n]] && b == b[..n] + [b[n]];
    }
  }

  /** The material is the beginning of those blocks, of as many as are needed. */
  lemma MaterialIsBlocks(s: Source, tag: Bytes, len: nat, blocks: seq<Bytes>)
    requires Hashes(s) && AreBlocks(s, tag, blocks) && |Joined(blocks)| >= len
    ensures Material(s, tag, len) == Joined(blocks)[..len]
  {
    var b := StreamIsBlocks(s, tag, |blocks|);
    BlocksAreUnique(s, tag, blocks, b);
    MaterialOf(s, tag, len, |blocks|);
  }

  /** In particular it begins with the hash of K, H, the tag and the session id. */
  lemma FirstBlock(s: Source, tag: Bytes, len: nat)
    requires Hashes(s)
    ensures var k1 := s.hash(s.k + s.h + tag + s.sessionID);
            if len <= |k1| then Material(s, tag, len) == k1[..len] else k1 <= Material(s, tag, len)
  {
    var blocks := StreamIsBlocks(s, tag, if len > 0 then len else 1);
    StreamLength(s, tag, |blocks|);
    MaterialIsBlocks(s, tag, len, blocks);
    FirstJoined(blocks);
  }

  lemma {:induction false} FirstJoined(blocks: seq<Bytes>)
    requires blocks != []
    ensures blocks[0] <= Joined(blocks)
    decreases |blocks|
  {
    if |blocks| > 1 {
      FirstJoined(blocks[..|blocks| - 1]);
    } else {
      assert Joined(blocks) == Joined([]) + blocks[0];
    }
  }

  // ----- the keys of one direction -----

  /** cipherModes and macModes: the sizes of IV, key and MAC key. */
  function IvSize(cipher: Bytes): nat {
    if cipher in {Ascii("aes128-ctr"), Ascii("aes192-ctr"), Ascii("aes256-ctr")} then 16
    else if cipher == Ascii("aes128-gcm@openssh.com") then 12
    else 0
  }

  function KeySize(cipher: Bytes): nat {
    if cipher == Ascii("aes192-ctr") then 24
    else if cipher in {Ascii("aes256-ctr"), Ascii("arcfour256")} then 32
    else 16
  }

  const MAC_KEY_SIZE := 20

  /** The direction type: which letters the three keys are made with. */
  datatype Tags = Tags(iv: Bytes, key: Bytes, mac: Bytes)

  /** serverKeys and clientKeys. */
  function TagsOf(fromClient: bool): Tags {
    if fromClient then Tags(Ascii("A"), Ascii("C"), Ascii("E")) else Tags(Ascii("B"), Ascii("D"), Ascii("F"))
  }

  datatype KeySet = KeySet(iv: Bytes, key: Bytes, mac: Bytes)

  ghost function KeysOf(s: Source, fromClient: bool, cipher: Bytes): KeySet
    requires Hashes(s)
  {
    var t := TagsOf(fromClient);
    KeySet(Material(s, t.iv, IvSize(cipher)), Material(s, t.key, KeySize(cipher)), Material(s, t.mac, MAC_KEY_SIZE))
  }

  /** generateKeys. */
  method GenerateKeys(s: Source, fromClient: bool, cipher: Bytes) returns (iv: array<byte>, key: array<byte>, macKey: array<byte>)
    requires Hashes(s)
    ensures KeySet(iv[..], key[..], macKey[..]) == KeysOf(s, fromClient, cipher)
  {
    hide Material, IvSize, KeySize;
    var t := TagsOf(fromClient);
    iv, key, macKey := new byte[IvSize(cipher)], new byte[KeySize(cipher)], new byte[MAC_KEY_SIZE];
    GenerateKeyMaterial(iv, t.iv, s);
    GenerateKeyMaterial(key, t.key, s);
    GenerateKeyMaterial(macKey, t.mac, s);
  }

  /** AES in counter mode takes an IV of one block and a key of its size; RC4 takes no IV, and AES-GCM one of 12 bytes. */
  lemma Sizes(s: Source, fromClient: bool, cipher: Bytes)
    requires Hashes(s)
    ensures var k := KeysOf(s, fromClient, cipher);
            && |k.mac| == 20
            && (cipher == Ascii("aes128-ctr") ==> |k.iv| == 16 && |k.key| == 16)
            && (cipher == Ascii("aes192-ctr") ==> |k.iv| == 16 && |k.key| == 24)
            && (cipher == Ascii("aes256-ctr") ==> |k.iv| == 16 && |k.key| == 32)
            && (cipher == Ascii("arcfour") || cipher == Ascii("arcfour128") ==> |k.iv| == 0 && |k.key| == 16)
            && (cipher == Ascii("arcfour256") ==> |k.iv| == 0 && |k.key| == 32)
            && (cipher == Ascii("aes128-gcm@openssh.com") ==> |k.iv| == 12 && |k.key| == 16)
  {
    CipherMarks();
  }

  /** The lengths and characters in which the names differ. */
  lemma CipherMarks()
    ensures Ascii("aes128-ctr")[3] == 49 && Ascii("aes128-ctr")[4] == 50 && |Ascii("aes128-ctr")| == 10
    ensures Ascii("aes192-ctr")[3] == 49 && Ascii("aes192-ctr")[4] == 57 && |Ascii("aes192-ctr")| == 10
    ensures Ascii("aes256-ctr")[3] == 50 && |Ascii("aes256-ctr")| == 10
    ensures |Ascii("arcfour")| == 7 && Ascii("arcfour128")[3] == 102 && |Ascii("arcfour128")| == 10 && Ascii("arcfour128")[7] == 49
    ensures Ascii("arcfour256")[3] == 102 && |Ascii("arcfour256")| == 10 && Ascii("arcfour256")[7] == 50
    ensures |Ascii("aes128-gcm@openssh.com")| == 22
  {
  }

  /** What K1 hashes for the tag of one letter. */
  function Input(s: Source, letter: byte): Bytes {
    s.k + s.h + [letter] + s.sessionID
  }

  /** The key is the beginning of the digest, or the digest is the beginning of the key. */
  predicate Begins(key: Bytes, digest: Bytes) {
    if |key| <= |digest| then key == digest[..|key|] else digest <= key
  }

  lemma InputsDiffer(s: Source, a: byte, b: byte)
    requires a != b
    ensures Input(s, a) != Input(s, b)
  {
    var n := |s.k + s.h|;
    assert Input(s, a)[n] == a && Input(s, b)[n] == b;
  }

  lemma LetterKey(s: Source, letter: byte, len: nat)
    requires Hashes(s)
    ensures Begins(Material(s, [letter], len), s.hash(Input(s, letter)))
  {
    FirstBlock(s, [letter], len);
  }

  /** The six keys of a connection begin with the hashes of six different strings: K and H, one of the letters A to F, and the
      session id; A, C and E for what the client sends, B, D and F for what the server sends. */
  lemma SixKeys(s: Source, cipher: Bytes)
    requires Hashes(s)
    ensures var c := KeysOf(s, true, cipher);
            Begins(c.iv, s.hash(Input(s, 65))) && Begins(c.key, s.hash(Input(s, 67))) && Begins(c.mac, s.hash(Input(s, 69)))
    ensures var c := KeysOf(s, false, cipher);
            Begins(c.iv, s.hash(Input(s, 66))) && Begins(c.key, s.hash(Input(s, 68))) && Begins(c.mac, s.hash(Input(s, 70)))
    ensures forall a: byte, b: byte | a != b :: Input(s, a) != Input(s, b)
  {
    hide Material, Begins, Input, IvSize, KeySize;
    Letters();
    LetterKey(s, 65, IvSize(cipher));
    LetterKey(s, 66, IvSize(cipher));
    LetterKey(s, 67, KeySize(cipher));
    LetterKey(s, 68, KeySize(cipher));
    LetterKey(s, 69, MAC_KEY_SIZE);
    LetterKey(s, 70, MAC_KEY_SIZE);
    forall a: byte, b: byte | a != b ensures Input(s, a) != Input(s, b) {
      InputsDiffer(s, a, b);
    }
  }

  lemma Letters()
    ensures Ascii("A") == [65] && Ascii("B") == [66] && Ascii("C") == [67] && Ascii("D") == [68] && Ascii("E") == [69] && Ascii("F") == [70]
  {
  }
}
