/**
 The RocksDB column families as maps of bytes, written in atomic batches: `src/storage/db.rs`.
 Writes are assumed to succeed.
 */
module Database {
  import opened Common
  import opened Blocks
  import opened Ledger

  /** `bincode` for blocks. */
  datatype Codec = Codec(encode: Block -> Bytes, decode: Bytes -> Option<Block>)

  ghost predicate RoundTrips(codec: Codec) {
    forall b :: codec.decode(codec.encode(b)) == Some(b)
  }

  datatype StoreError = DecodeFailed | CorruptHeightIndex | CorruptChainState

  /** The three column families the chain uses. */
  datatype Store = Store(blocksByHash: map<Bytes, Bytes>, blocksByHeight: map<Bytes, Bytes>, chainState: map<Bytes, Bytes>)

  const KEY_HEIGHT: Bytes := [104, 101, 105, 103, 104, 116]
  const KEY_TIP: Bytes := [116, 105, 112]

  const EMPTY: Store := Store(map[], map[], map[])

  function PutBlock(rules: Rules, codec: Codec, db: Store, b: Block): Store {
    var hash := HashOf(rules, b);
    db.(blocksByHash := db.blocksByHash[hash := codec.encode(b)],
        blocksByHeight := db.blocksByHeight[ToLe(b.header.height, 8) := hash])
  }

  function GetByHash(codec: Codec, db: Store, hash: Bytes): Result<Option<Block>, StoreError> {
    if hash !in db.blocksByHash then Ok(None)
    else match codec.decode(db.blocksByHash[hash]) case Some(b) => Ok(Some(b)) case None => Err(DecodeFailed)
  }

  function GetByHeight(codec: Codec, db: Store, height: u64): Result<Option<Block>, StoreError> {
    var key := ToLe(height, 8);
    if key !in db.blocksByHeight then Ok(None)
    else
      var bytes := db.blocksByHeight[key];
      if |bytes| < 32 then Err(CorruptHeightIndex) else GetByHash(codec, db, bytes[..32])
  }

  function SaveState(db: Store, height: u64, tip: Bytes32): Store {
    db.(chainState := db.chainState[KEY_HEIGHT := ToLe(height, 8)][KEY_TIP := tip])
  }

  /** A little-endian 64-bit integer. */
  function U64FromLe(b: Bytes): u64
    requires |b| == 8
  {
    LeOfBytes(b);
    PowersOfTwo();
    FromLe(b)
  }

  function LoadState(db: Store): Result<Option<(u64, Bytes)>, StoreError> {
    if KEY_HEIGHT !in db.chainState || KEY_TIP !in db.chainState then Ok(None)
    else
      var h, t := db.chainState[KEY_HEIGHT], db.chainState[KEY_TIP];
      if |h| < 8 || |t| < 32 then Err(CorruptChainState) else Ok(Some((U64FromLe(h[..8]), t[..32])))
  }

  // ---- The store as an object ---------------------------------------------------------------

  /** `CipherXDb`: each method writes one batch, or only reads. */
  class Db {
    const rules: Rules
    const codec: Codec
    var blocksByHash: map<Bytes, Bytes>
    var blocksByHeight: map<Bytes, Bytes>
    var chainState: map<Bytes, Bytes>

    ghost function Contents(): Store
      reads this
    {
      Store(blocksByHash, blocksByHeight, chainState)
    }

    /** Opens a store holding what an earlier process left. */
    constructor (rules: Rules, codec: Codec, left: Store)
      ensures this.rules == rules && this.codec == codec && Contents() == left
    {
      this.rules, this.codec := rules, codec;
      blocksByHash, blocksByHeight, chainState := left.blocksByHash, left.blocksByHeight, left.chainState;
    }

    method Put(b: Block)
      modifies this`blocksByHash, this`blocksByHeight
      ensures Contents() == PutBlock(rules, codec, old(Contents()), b)
    {
      var hash := HashOf(rules, b);
      var encoded := codec.encode(b);
      blocksByHash := blocksByHash[hash := encoded];
      blocksByHeight := blocksByHeight[ToLe(b.header.height, 8) := hash];
    }

    method ByHash(hash: Bytes) returns (r: Result<Option<Block>, StoreError>)
      ensures r == GetByHash(codec, Contents(), hash)
    {
      if hash !in blocksByHash { return Ok(None); }
      match codec.decode(blocksByHash[hash]) {
        case Some(b) => return Ok(Some(b));
        case None => return Err(DecodeFailed);
      }
    }

    method ByHeight(height: u64) returns (r: Result<Option<Block>, StoreError>)
      ensures r == GetByHeight(codec, Contents(), height)
    {
      var key := ToLe(height, 8);
      if key !in blocksByHeight { return Ok(None); }
      var bytes := blocksByHeight[key];
      if |bytes| < 32 { return Err(CorruptHeightIndex); }
      r := ByHash(bytes[..32]);
    }

    method Save(height: u64, tip: Bytes32)
      modifies this`chainState
      ensures Contents() == SaveState(old(Contents()), height, tip)
    {
      chainState := chainState[KEY_HEIGHT := ToLe(height, 8)];
      chainState := chainState[KEY_TIP := tip];
    }

    method Load() returns (r: Result<Option<(u64, Bytes)>, StoreError>)
      ensures r == LoadState(Contents())
    {
      if KEY_HEIGHT !in chainState { return Ok(None); }
      if KEY_TIP !in chainState { return Ok(None); }
      var h, t := chainState[KEY_HEIGHT], chainState[KEY_TIP];
      if |h| < 8 || |t| < 32 { return Err(CorruptChainState); }
      return Ok(Some((U64FromLe(h[..8]), t[..32])));
    }
  }

  // ---- What the store gives back ------------------------------------------------------------------

  lemma HeightKeysDiffer(a: u64, b: u64)
    requires a != b
    ensures ToLe(a, 8) != ToLe(b, 8)
  {
    PowersOfTwo();
    if ToLe(a, 8) == ToLe(b, 8) { LeInjective(a, b, 8); }
  }

  /** A stored block is read back under its height and under its hash. */
  lemma PutGet(rules: Rules, codec: Codec, db: Store, b: Block)
    requires RoundTrips(codec)
    ensures GetByHeight(codec, PutBlock(rules, codec, db, b), b.header.height) == Ok(Some(b))
    ensures GetByHash(codec, PutBlock(rules, codec, db, b), HashOf(rules, b)) == Ok(Some(b))
  {
    var hash := HashOf(rules, b);
    assert hash[..32] == hash;
    assert codec.decode(codec.encode(b)) == Some(b);
  }

  /** A block of another height and hash leaves a stored one readable. */
  lemma PutElsewhere(rules: Rules, codec: Codec, db: Store, b: Block, height: u64, held: Block)
    requires height != b.header.height && HashOf(rules, b) != HashOf(rules, held)
    requires HeldAt(rules, codec, db, height, held)
    ensures HeldAt(rules, codec, PutBlock(rules, codec, db, b), height, held)
  {
    HeightKeysDiffer(height, b.header.height);
  }

  /** The height index names this block's hash, and the block is filed under it. */
  predicate HeldAt(rules: Rules, codec: Codec, db: Store, height: u64, b: Block) {
    && ToLe(height, 8) in db.blocksByHeight && db.blocksByHeight[ToLe(height, 8)] == HashOf(rules, b)
    && HashOf(rules, b) in db.blocksByHash && db.blocksByHash[HashOf(rules, b)] == codec.encode(b)
  }

  lemma HeldIsRead(rules: Rules, codec: Codec, db: Store, height: u64, b: Block)
    requires RoundTrips(codec) && HeldAt(rules, codec, db, height, b)
    ensures GetByHeight(codec, db, height) == Ok(Some(b))
  {
    var hash := HashOf(rules, b);
    assert hash[..32] == hash;
    assert codec.decode(codec.encode(b)) == Some(b);
  }

  lemma SaveLoad(db: Store, height: u64, tip: Bytes32)
    ensures LoadState(SaveState(db, height, tip)) == Ok(Some((height, tip)))
  {
    PowersOfTwo();
    LeRoundTrip(height, 8);
    assert ToLe(height, 8)[..8] == ToLe(height, 8);
    assert tip[..32] == tip;
    assert KEY_HEIGHT != KEY_TIP by { assert |KEY_HEIGHT| != |KEY_TIP|; }
  }
}
