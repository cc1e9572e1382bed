/**
 * Blob keys: the printer of src/util.rs, the hex reader of src/blob_hash.rs and the
 * choice of deletable keys in src/gc.rs. Texts are their UTF-8 bytes.
 */
module Keys {
  import opened Wrappers
  import opened Bytes
  import Text

  const SLASH: u8 := 0x2F
  const BASE: seq<u8> := [0x62, 0x61, 0x73, 0x65]
  const DATA: seq<u8> := [0x64, 0x61, 0x74, 0x61]
  const BLOBS: seq<u8> := [0x62, 0x6C, 0x6F, 0x62, 0x73]
  const NO_SHARD: seq<u8> := [0x5F, 0x5F]

  /** `hex_digit`. */
  function HexDigit(c: u8): (d: Option<u8>)
    ensures d.Some? ==> d.value < 16
  {
    if 0x30 <= c <= 0x39 then Some(c - 0x30)
    else if 0x61 <= c <= 0x66 then Some(c - 0x61 + 10)
    else if 0x41 <= c <= 0x46 then Some(c - 0x41 + 10)
    else None
  }

  function FromPairs(s: seq<u8>): (r: Option<seq<u8>>)
    requires |s| % 2 == 0
    ensures r.Some? ==> 2 * |r.value| == |s|
  {
    if s == [] then Some([])
    else
      var high :- HexDigit(s[0]);
      var low :- HexDigit(s[1]);
      var rest :- FromPairs(s[2..]);
      Some([16 * high + low] + rest)
  }

  /** `from_hex`. */
  function FromHex(s: seq<u8>): Option<seq<u8>> {
    if |s| != 32 then None else FromPairs(s)
  }

  /** What is left to decode, one pair further. */
  lemma NextPair(s: seq<u8>, i: nat, result: seq<u8>)
    requires |s| == 32 && i < 16
    ensures var high, low := HexDigit(s[2 * i]), HexDigit(s[2 * i + 1]);
            if high.None? || low.None? then FromPairs(s[2 * i..]).None?
            else Behind(result, FromPairs(s[2 * i..]))
                 == Behind(result + [16 * high.value + low.value], FromPairs(s[2 * (i + 1)..]))
  {
    hide HexDigit;
    var rest := s[2 * i..];
    assert rest[2..] == s[2 * (i + 1)..] && rest[0] == s[2 * i] && rest[1] == s[2 * i + 1];
    var high, low, tail := HexDigit(rest[0]), HexDigit(rest[1]), FromPairs(rest[2..]);
    if high.Some? && low.Some? && tail.Some? {
      var b: u8 := 16 * high.value + low.value;
      assert result + ([b] + tail.value) == result + [b] + tail.value;
    }
  }

  function Behind(front: seq<u8>, rest: Option<seq<u8>>): Option<seq<u8>> {
    match rest
    case None => None
    case Some(back) => Some(front + back)
  }

  method FromHexLoop(s: seq<u8>) returns (r: Option<seq<u8>>)
    ensures r == FromHex(s)
  {
    if |s| != 32 {
      return None;
    }
    hide FromPairs;
    var result: seq<u8> := [];
    assert s[0..] == s && Behind([], FromPairs(s)) == FromPairs(s) by {
      EmptyFront(FromPairs(s));
    }
    for i := 0 to 16
      invariant FromPairs(s) == Behind(result, FromPairs(s[2 * i..]))
    {
      NextPair(s, i, result);
      var high, low := HexDigit(s[2 * i]), HexDigit(s[2 * i + 1]);
      if high.None? || low.None? {
        return None;
      }
      result := result + [16 * high.value + low.value];
    }
    assert s[32..] == [];
    NoPairs();
    assert result + [] == result;
    r := Some(result);
  }

  lemma EmptyFront(rest: Option<seq<u8>>)
    ensures Behind([], rest) == rest
  {
    if rest.Some? {
      assert [] + rest.value == rest.value;
    }
  }

  lemma NoPairs()
    ensures FromPairs([]) == Some([])
  {
  }

  /** A digit of `{:02x}`. */
  function HexChar(d: int): u8
    requires 0 <= d < 16
  {
    if d < 10 then 0x30 + d else 0x61 + d - 10
  }

  /** A shard's prefix, and a byte of a hash: two lower-case digits, the upper half first. */
  function ShardName(shard: int): seq<u8>
    requires 0 <= shard < 256
  {
    [HexChar(shard / 16), HexChar(shard % 16)]
  }

  /** The digits are those of `0123456789abcdef`, and reading undoes printing. */
  lemma DigitTable(d: int)
    requires 0 <= d < 16
    ensures HexChar(d) == [0x30, 0x31, 0x32, 0x33, 0x34, 0x35, 0x36, 0x37,
                           0x38, 0x39, 0x61, 0x62, 0x63, 0x64, 0x65, 0x66][d]
    ensures HexDigit(HexChar(d)) == Some(d)
  {
  }

  /** The text of a hash. */
  function ToHex(bytes: seq<u8>): (s: seq<u8>)
    ensures |s| == 2 * |bytes|
  {
    if bytes == [] then [] else ShardName(bytes[0]) + ToHex(bytes[1..])
  }

  /** Reading undoes printing: a hash of 16 bytes comes back byte by byte. */
  lemma HexRoundTrip(bytes: seq<u8>)
    requires |bytes| == 16
    ensures FromHex(ToHex(bytes)) == Some(bytes)
  {
    PairsRoundTrip(bytes);
  }

  lemma {:induction false} PairsRoundTrip(bytes: seq<u8>)
    ensures FromPairs(ToHex(bytes)) == Some(bytes)
  {
    hide HexDigit;
    hide HexChar;
    hide FromPairs;
    if bytes == [] {
      NoPairs();
    } else {
      var b, rest := bytes[0], ToHex(bytes[1..]);
      PairsRoundTrip(bytes[1..]);
      DigitTable(b / 16);
      DigitTable(b % 16);
      var s := ToHex(bytes);
      assert s[0] == HexChar(b / 16) && s[1] == HexChar(b % 16) && s[2..] == rest;
      ReadPair(s, b / 16, b % 16);
      assert [bytes[0]] + bytes[1..] == bytes;
    }
  }

  lemma ReadPair(s: seq<u8>, high: u8, low: u8)
    requires |s| >= 2 && |s| % 2 == 0 && HexDigit(s[0]) == Some(high) && HexDigit(s[1]) == Some(low)
    ensures high < 16 && low < 16
    ensures FromPairs(s) == Behind([16 * high + low], FromPairs(s[2..]))
  {
    hide HexDigit;
  }

  /** What can be read is a text of 32 digits in either case, and printing the bytes gives it back in lower case. */
  lemma HexPrintsBack(s: seq<u8>)
    ensures FromHex(s).Some? <==> |s| == 32 && forall c :: c in s ==> IsDigit(c)
    ensures FromHex(s).Some? ==> ToHex(FromHex(s).value) == Lower(s)
  {
    if |s| == 32 {
      PairsPrintBack(s);
    }
  }

  predicate IsDigit(c: u8) { 0x30 <= c <= 0x39 || 0x61 <= c <= 0x66 || 0x41 <= c <= 0x46 }

  lemma FirstTwo(s: seq<u8>)
    requires |s| >= 2
    ensures (forall c :: c in s ==> IsDigit(c)) <==>
            IsDigit(s[0]) && IsDigit(s[1]) && forall c :: c in s[2..] ==> IsDigit(c)
  {
    hide IsDigit;
    assert s == [s[0], s[1]] + s[2..];
  }

  lemma {:induction false} PairsPrintBack(s: seq<u8>)
    requires |s| % 2 == 0
    ensures FromPairs(s).Some? <==> forall c :: c in s ==> IsDigit(c)
    ensures FromPairs(s).Some? ==> ToHex(FromPairs(s).value) == Lower(s)
  {
    hide HexDigit;
    hide IsDigit;
    hide LowerChar;
    if s != [] {
      hide Lower;
      hide ToHex;
      PairsPrintBack(s[2..]);
      FirstTwo(s);
      LowerTail(s);
      DigitPrintsBack(s[0]);
      DigitPrintsBack(s[1]);
      if FromPairs(s).Some? {
        PrintByte(HexDigit(s[0]).value, HexDigit(s[1]).value, FromPairs(s[2..]).value);
      }
    }
  }

  lemma PrintByte(high: u8, low: u8, rest: seq<u8>)
    requires high < 16 && low < 16
    ensures ToHex([16 * high + low] + rest) == [HexChar(high), HexChar(low)] + ToHex(rest)
  {
    hide HexChar;
    Halves(high, low);
    assert ([16 * high + low] + rest)[1..] == rest;
  }

  lemma Halves(high: int, low: int)
    requires 0 <= high < 16 && 0 <= low < 16
    ensures (16 * high + low) / 16 == high && (16 * high + low) % 16 == low && 16 * high + low < 256
  {
  }

  lemma DigitPrintsBack(c: u8)
    ensures HexDigit(c).Some? <==> IsDigit(c)
    ensures HexDigit(c).Some? ==> HexChar(HexDigit(c).value) == LowerChar(c)
  {
  }

  function LowerChar(c: u8): u8 { if 0x41 <= c <= 0x46 then c + 0x20 else c }

  /** The text with A to F in lower case. */
  function Lower(s: seq<u8>): seq<u8> {
    seq(|s|, i requires 0 <= i < |s| => LowerChar(s[i]))
  }

  /** Two texts give the same bytes exactly when they differ in letter case only. */
  lemma {:induction false} PairsUpToCase(a: seq<u8>, b: seq<u8>)
    requires |a| == |b| && |a| % 2 == 0
    ensures FromPairs(a).Some? ==> (FromPairs(b) == FromPairs(a) <==> Lower(a) == Lower(b))
  {
    hide HexDigit;
    hide LowerChar;
    hide Lower;
    if a != [] {
      PairsUpToCase(a[2..], b[2..]);
      LowerTail(a);
      LowerTail(b);
      DigitUpToCase(a[0], b[0]);
      DigitUpToCase(a[1], b[1]);
      if FromPairs(a).Some? && FromPairs(b).Some? {
        assert FromPairs(a).value[1..] == FromPairs(a[2..]).value;
        assert FromPairs(b).value[1..] == FromPairs(b[2..]).value;
      }
      if Lower(a) == Lower(b) {
        assert Lower(a)[0] == Lower(b)[0] && Lower(a)[1] == Lower(b)[1];
      }
    } else {
      assert a == b;
    }
  }

  lemma DigitUpToCase(a: u8, b: u8)
    ensures HexDigit(a).Some? ==> (HexDigit(b) == HexDigit(a) <==> LowerChar(a) == LowerChar(b))
  {
  }

  lemma LowerTail(s: seq<u8>)
    requires |s| >= 2
    ensures Lower(s)[2..] == Lower(s[2..])
    ensures Lower(s) == [LowerChar(s[0]), LowerChar(s[1])] + Lower(s[2..])
  {
  }

  lemma HexUpToCase(a: seq<u8>, b: seq<u8>)
    requires FromHex(a).Some?
    ensures FromHex(b) == FromHex(a) <==> Lower(a) == Lower(b)
  {
    if |b| == 32 {
      PairsUpToCase(a, b);
    } else {
      assert |Lower(a)| != |Lower(b)|;
    }
  }

  /** `blob_shard`. */
  function Shard(hash: seq<u8>): seq<u8> { if |hash| >= 2 then hash[..2] else NO_SHARD }

  /** `blob_remote_key`. */
  function BlobRemoteKey(hash: seq<u8>): seq<u8> {
    Text.Join([BASE, DATA, BLOBS, Shard(hash), hash], SLASH)
  }

  /** The key of a blob: `base/data/blobs/`, its first two digits, a slash and the hash. */
  lemma KeyLayout(hash: seq<u8>)
    ensures BlobRemoteKey(hash) ==
            [0x62, 0x61, 0x73, 0x65, 0x2F, 0x64, 0x61, 0x74, 0x61, 0x2F, 0x62, 0x6C, 0x6F, 0x62, 0x73, 0x2F]
            + (if |hash| >= 2 then [hash[0], hash[1]] else [0x5F, 0x5F]) + [0x2F] + hash
  {
    var shard := Shard(hash);
    assert shard == if |hash| >= 2 then [hash[0], hash[1]] else [0x5F, 0x5F];
    var parts := [BASE, DATA, BLOBS, shard, hash];
    assert parts[1..] == [DATA, BLOBS, shard, hash] && parts[1..][1..] == [BLOBS, shard, hash];
    assert parts[1..][1..][1..] == [shard, hash] && parts[1..][1..][1..][1..] == [hash];
    assert Text.Join([hash], SLASH) == hash;
    assert Text.Join([shard, hash], SLASH) == shard + [SLASH] + hash;
    assert Text.Join([BLOBS, shard, hash], SLASH) == BLOBS + [SLASH] + (shard + [SLASH] + hash);
    assert Text.Join([DATA, BLOBS, shard, hash], SLASH)
           == DATA + [SLASH] + (BLOBS + [SLASH] + (shard + [SLASH] + hash));
  }

  /** `parse_unreferenced_blob`. */
  function ParseUnreferenced(key: seq<u8>, referenced: set<seq<u8>>): Option<seq<u8>> {
    var parts := Text.Split(key, SLASH);
    if |parts| < 5 || parts[..3] != [BASE, DATA, BLOBS] then None
    else
      var shard, hash := parts[3], parts[4];
      if |shard| != 2 || |hash| != 32 || hash[..2] != shard then None
      else
        var bytes :- FromHex(hash);
        if bytes in referenced then None else Some(hash)
  }

  /** The set `gc_all_blobs` looks hashes up in: malformed ones are dropped. */
  function ReferencedBytes(hashes: set<seq<u8>>): set<seq<u8>> {
    set h | h in hashes && FromHex(h).Some? :: FromHex(h).value
  }

  /** A blob is selected for deletion when its key names it as unreferenced. */
  predicate Selected(hash: seq<u8>, hashes: set<seq<u8>>) {
    ParseUnreferenced(BlobRemoteKey(hash), ReferencedBytes(hashes)) == Some(hash)
  }

  /** The key of the blob starts with the prefix of the shard. */
  predicate InShard(hash: seq<u8>, shard: int) { 0 <= shard < 256 && Shard(hash) == ShardName(shard) }

  predicate LowerDigit(c: u8) { 0x30 <= c <= 0x39 || 0x61 <= c <= 0x66 }

  /** The blob is in one of the shards that are listed. */
  predicate Scanned(hash: seq<u8>) { |hash| >= 2 && LowerDigit(hash[0]) && LowerDigit(hash[1]) }

  /** The 256 shards cover exactly the hashes that start with two lower-case digits. */
  lemma ScannedExactly(hash: seq<u8>)
    ensures Scanned(hash) <==> exists shard :: InShard(hash, shard)
  {
    forall shard | InShard(hash, shard)
      ensures Scanned(hash)
    {
      assert ShardName(shard)[0] == HexChar(shard / 16) && ShardName(shard)[1] == HexChar(shard % 16);
    }
    if Scanned(hash) {
      var high, low := HexDigit(hash[0]).value, HexDigit(hash[1]).value;
      assert InShard(hash, 16 * high + low);
    }
  }

  lemma {:induction false} HexHasNoSlash(s: seq<u8>)
    requires |s| % 2 == 0 && FromPairs(s).Some?
    ensures SLASH !in s
  {
    if s != [] {
      HexHasNoSlash(s[2..]);
      assert s == [s[0], s[1]] + s[2..];
    }
  }

  lemma KeySegments(hash: seq<u8>)
    requires FromHex(hash).Some?
    ensures Text.Split(BlobRemoteKey(hash), SLASH) == [BASE, DATA, BLOBS, hash[..2], hash]
  {
    HexHasNoSlash(hash);
    Text.SplitJoin([BASE, DATA, BLOBS, hash[..2], hash], SLASH);
  }

  /**
   * For every hash of 32 hex digits, its own key gives it back exactly when no
   * referenced hash equals it up to letter case.
   */
  lemma SelectionExact(hash: seq<u8>, hashes: set<seq<u8>>)
    requires FromHex(hash).Some?
    ensures Selected(hash, hashes) <==> forall h :: h in hashes ==> Lower(h) != Lower(hash)
  {
    KeySegments(hash);
    forall h | h in hashes
      ensures FromHex(h) == FromHex(hash) <==> Lower(hash) == Lower(h)
    {
      HexUpToCase(hash, h);
    }
    assert [BASE, DATA, BLOBS, hash[..2], hash][..3] == [BASE, DATA, BLOBS];
  }

  /** What is selected is well formed, and never among the referenced hashes, malformed ones included. */
  lemma SelectedIsUnreferenced(key: seq<u8>, hashes: set<seq<u8>>)
    requires ParseUnreferenced(key, ReferencedBytes(hashes)).Some?
    ensures var hash := ParseUnreferenced(key, ReferencedBytes(hashes)).value;
            FromHex(hash).Some? && forall h :: h in hashes ==> Lower(h) != Lower(hash)
  {
    var hash := ParseUnreferenced(key, ReferencedBytes(hashes)).value;
    forall h | h in hashes
      ensures Lower(h) != Lower(hash)
    {
      HexUpToCase(hash, h);
    }
  }

  /** A selected key of five segments is the key its hash prints to. */
  lemma SelectedPrintsBack(key: seq<u8>, referenced: set<seq<u8>>)
    requires ParseUnreferenced(key, referenced).Some? && |Text.Split(key, SLASH)| == 5
    ensures BlobRemoteKey(ParseUnreferenced(key, referenced).value) == key
  {
    var parts := Text.Split(key, SLASH);
    Text.JoinSplit(key, SLASH);
    assert parts == parts[..3] + [parts[3], parts[4]];
    assert parts == [BASE, DATA, BLOBS, parts[3], parts[4]];
  }

  /**
   * A longer key does not print back: an object below a blob's key selects the blob
   * itself, whatever the blob's own age.
   */
  lemma LongerKeySelectsAnother(hash: seq<u8>, more: seq<u8>, referenced: set<seq<u8>>)
    requires FromHex(hash).Some? && FromHex(hash).value !in referenced
    ensures ParseUnreferenced(BlobRemoteKey(hash) + [SLASH] + more, referenced) == Some(hash)
    ensures BlobRemoteKey(hash) != BlobRemoteKey(hash) + [SLASH] + more
  {
    HexHasNoSlash(hash);
    var parts := [BASE, DATA, BLOBS, hash[..2], hash];
    SplitJoinMore(parts, more);
    var all := parts + Text.Split(more, SLASH);
    assert all[..3] == [BASE, DATA, BLOBS] && all[3] == hash[..2] && all[4] == hash;
    assert |BlobRemoteKey(hash) + [SLASH] + more| > |BlobRemoteKey(hash)|;
  }

  /** Every selected key prints back exactly when it ends with its hash, as five segments. */
  lemma PrintsBackExactly(key: seq<u8>, referenced: set<seq<u8>>)
    requires ParseUnreferenced(key, referenced).Some?
    ensures BlobRemoteKey(ParseUnreferenced(key, referenced).value) == key <==> |Text.Split(key, SLASH)| == 5
  {
    if |Text.Split(key, SLASH)| == 5 {
      SelectedPrintsBack(key, referenced);
    }
    KeySegments(ParseUnreferenced(key, referenced).value);
  }

  lemma {:induction false} SplitJoinMore(parts: seq<seq<u8>>, more: seq<u8>)
    requires |parts| >= 1 && forall p :: p in parts ==> SLASH !in p
    ensures Text.Split(Text.Join(parts, SLASH) + [SLASH] + more, SLASH) == parts + Text.Split(more, SLASH)
  {
    assert parts[0] in parts;
    if |parts| == 1 {
      Text.SplitStep(parts[0], SLASH, more);
    } else {
      var rest := Text.Join(parts[1..], SLASH) + [SLASH] + more;
      SplitJoinMore(parts[1..], more);
      hide Text.Split;
      Text.SplitStep(parts[0], SLASH, rest);
      assert Text.Join(parts, SLASH) + [SLASH] + more == parts[0] + [SLASH] + rest;
      var tail := Text.Split(more, SLASH);
      assert [parts[0]] + (parts[1..] + tail) == parts + tail;
    }
  }
}
