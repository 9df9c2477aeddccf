/**
 The `coingecko_prices` store: USD prices keyed by (CoinGecko id, unix
 timestamp).  The persisted table is a map from that composite key to the
 price, so the table holds at most one price per key by construction; the
 bulk upsert and the full wipe change it in place, and the reads and the
 grouped min/max are functions of it.
 */
module Prices {
  import opened NumberText

  /** A CoinGecko asset id; an opaque piece of text. */
  datatype CoingeckoId = CoingeckoId(text: string)

  /** A unix time in seconds. */
  type UnixTime = int

  /** A USD price, treated as an opaque number. */
  type Price = real

  datatype PriceRecord = PriceRecord(coingeckoId: CoingeckoId, priceUsd: Price, timestamp: UnixTime)

  datatype DataBoundary = DataBoundary(earliest: UnixTime, latest: UnixTime)

  /** A row of `coingecko_prices` as the database driver sees it: the timestamp travels as text. */
  datatype PriceRow = PriceRow(coingeckoId: string, priceUsd: Price, unixTimestamp: string)

  type Key = (CoingeckoId, UnixTime)

  /** The persisted table: its primary key is (coingecko_id, unix_timestamp). */
  type Table = map<Key, Price>

  function KeyOf(r: PriceRecord): Key {
    (r.coingeckoId, r.timestamp)
  }

  function RecordAt(t: Table, k: Key): PriceRecord
    requires k in t
  {
    PriceRecord(k.0, t[k], k.1)
  }

  /** The table holds record `r`: its key is present with its price. */
  predicate Stores(t: Table, r: PriceRecord) {
    KeyOf(r) in t && t[KeyOf(r)] == r.priceUsd
  }

  // ---------------------------------------------------------------------
  // Row converters

  /** The row written for a record: its timestamp text reads back, with unary `+`, as the timestamp. */
  function ToRow(r: PriceRecord): (row: PriceRow)
    ensures row.coingeckoId == r.coingeckoId.text && row.priceUsd == r.priceUsd
    ensures UnaryPlus(row.unixTimestamp) == Some(r.timestamp)
  {
    UnaryPlusInvertsNumberToString(r.timestamp);
    PriceRow(r.coingeckoId.text, r.priceUsd, NumberToString(r.timestamp))
  }

  /** A row read back into a record; `None` when the timestamp text is not a number. */
  function ToRecord(row: PriceRow): (r: Option<PriceRecord>)
    ensures r.Some? ==> ToRow(r.value).coingeckoId == row.coingeckoId && ToRow(r.value).priceUsd == row.priceUsd
    ensures r.Some? ==> UnaryPlus(ToRow(r.value).unixTimestamp) == UnaryPlus(row.unixTimestamp)
    ensures r.Some? <==> UnaryPlus(row.unixTimestamp).Some?
  {
    match UnaryPlus(row.unixTimestamp)
    case None => None
    case Some(t) => Some(PriceRecord(CoingeckoId(row.coingeckoId), row.priceUsd, t))
  }

  /** Writing a record as a row and reading it back keeps its id and timestamp. */
  lemma ToRecordInvertsToRow(r: PriceRecord)
    ensures ToRecord(ToRow(r)).Some?
    ensures ToRecord(ToRow(r)).value.coingeckoId == r.coingeckoId
    ensures ToRecord(ToRow(r)).value.timestamp == r.timestamp
  {
    UnaryPlusInvertsNumberToString(r.timestamp);
  }

  // ---------------------------------------------------------------------
  // Insert with merge on the composite key

  /** No two records of the batch share a (coingeckoId, timestamp) key. */
  predicate DistinctKeys(batch: seq<PriceRecord>) {
    forall i, j :: 0 <= i < j < |batch| ==> KeyOf(batch[i]) != KeyOf(batch[j])
  }

  function BatchKeys(batch: seq<PriceRecord>): set<Key> {
    set r | r in batch :: KeyOf(r)
  }

  /**
   The table after inserting `batch` with `ON CONFLICT (coingecko_id,
   unix_timestamp) DO UPDATE`: each record of the batch sets the price of
   its key, and every other key keeps its price.
   */
  function Upsert(t: Table, batch: seq<PriceRecord>): (u: Table)
    requires DistinctKeys(batch)
    ensures u.Keys == t.Keys + BatchKeys(batch)
    ensures forall r :: r in batch ==> KeyOf(r) in u && u[KeyOf(r)] == r.priceUsd
    ensures forall k :: k in t && k !in BatchKeys(batch) ==> u[k] == t[k]
    decreases |batch|
  {
    if batch == [] then t
    else
      var rest := batch[1..];
      assert KeyOf(batch[0]) !in BatchKeys(rest);
      assert BatchKeys(batch) == {KeyOf(batch[0])} + BatchKeys(rest);
      Upsert(t[KeyOf(batch[0]) := batch[0].priceUsd], rest)
  }

  /** Applying the same batch twice leaves the table as applying it once. */
  lemma UpsertIdempotent(t: Table, batch: seq<PriceRecord>)
    requires DistinctKeys(batch)
    ensures Upsert(Upsert(t, batch), batch) == Upsert(t, batch)
  {
  }

  /**
   The records stored after the upsert are exactly the batch's records and
   the old records whose key the batch does not touch.
   */
  lemma UpsertStores(t: Table, batch: seq<PriceRecord>, r: PriceRecord)
    requires DistinctKeys(batch)
    ensures Stores(Upsert(t, batch), r) <==>
            r in batch || (Stores(t, r) && KeyOf(r) !in BatchKeys(batch))
  {
  }

  // ---------------------------------------------------------------------
  // Grouped minimum and maximum

  /** The least element of `s`, searching down from `seed`. */
  ghost function MinFrom(s: set<int>, seed: int): (m: int)
    requires seed in s
    ensures m in s && forall y :: y in s ==> m <= y
    decreases s
  {
    if exists y :: y in s && y < seed then
      var y :| y in s && y < seed;
      assert forall z :: z in s ==> z == seed || z in s - {seed};
      MinFrom(s - {seed}, y)
    else
      seed
  }

  /** The greatest element of `s`, searching up from `seed`. */
  ghost function MaxFrom(s: set<int>, seed: int): (m: int)
    requires seed in s
    ensures m in s && forall y :: y in s ==> y <= m
    decreases s
  {
    if exists y :: y in s && y > seed then
      var y :| y in s && y > seed;
      assert forall z :: z in s ==> z == seed || z in s - {seed};
      MaxFrom(s - {seed}, y)
    else
      seed
  }

  /** The ids that have at least one stored row. */
  function StoredIds(t: Table): set<CoingeckoId> {
    set k | k in t :: k.0
  }

  /** The stored timestamps of one id. */
  function TimestampsOf(t: Table, id: CoingeckoId): set<UnixTime> {
    set k | k in t && k.0 == id :: k.1
  }

  /**
   The `min(unix_timestamp)`, `max(unix_timestamp)` of one group of the
   `GROUP BY coingecko_id`.
   */
  ghost function BoundaryOf(t: Table, id: CoingeckoId): (b: DataBoundary)
    requires id in StoredIds(t)
    ensures b.earliest in TimestampsOf(t, id) && b.latest in TimestampsOf(t, id)
    ensures forall x :: x in TimestampsOf(t, id) ==> b.earliest <= x <= b.latest
  {
    var k :| k in t && k.0 == id;
    var ts := TimestampsOf(t, id);
    assert k.1 in ts;
    var min, max := MinFrom(ts, k.1), MaxFrom(ts, k.1);
    // the driver returns each aggregate as decimal text, read with `parseInt`
    ParseIntInvertsNumberToString(min);
    ParseIntInvertsNumberToString(max);
    DataBoundary(ParseInt(NumberToString(min)).value, ParseInt(NumberToString(max)).value)
  }

  // ---------------------------------------------------------------------
  // The repository

  class PriceRepository {
    /** The contents of `coingecko_prices`. */
    var table: Table

    /** A repository over the table as it is already persisted. */
    constructor (stored: Table)
      ensures table == stored
    {
      table := stored;
    }

    /** Every stored record, one per key. */
    function GetAll(): (r: set<PriceRecord>)
      reads this
      ensures forall rec :: rec in r <==> Stores(table, rec)
      ensures forall a, b :: a in r && b in r && KeyOf(a) == KeyOf(b) ==> a == b
    {
      var all := set k | k in table :: RecordAt(table, k);
      assert forall rec :: Stores(table, rec) ==> rec == RecordAt(table, KeyOf(rec));
      all
    }

    /** The stored records at one timestamp, across all ids; empty when none match. */
    function GetByTimestamp(timestamp: UnixTime): (r: set<PriceRecord>)
      reads this
      ensures forall rec :: rec in r <==> Stores(table, rec) && rec.timestamp == timestamp
    {
      var matching := set k | k in table && k.1 == timestamp :: RecordAt(table, k);
      assert forall rec :: Stores(table, rec) ==> rec == RecordAt(table, KeyOf(rec));
      matching
    }

    /** The stored records of one id, across all timestamps; empty for an unknown id. */
    function GetAllByToken(coingeckoId: CoingeckoId): (r: set<PriceRecord>)
      reads this
      ensures forall rec :: rec in r <==> Stores(table, rec) && rec.coingeckoId == coingeckoId
    {
      var matching := set k | k in table && k.0 == coingeckoId :: RecordAt(table, k);
      assert forall rec :: Stores(table, rec) ==> rec == RecordAt(table, KeyOf(rec));
      matching
    }

    /** Inserts the batch, merging on conflict of (coingecko_id, unix_timestamp). */
    method AddOrUpdate(prices: seq<PriceRecord>)
      requires DistinctKeys(prices)
      modifies this
      ensures table == Upsert(old(table), prices)
      ensures forall rec :: rec in GetAll() <==>
                rec in prices || (rec in old(GetAll()) && KeyOf(rec) !in BatchKeys(prices))
    {
      ghost var before := table;
      table := Upsert(table, prices);
      forall rec
        ensures Stores(table, rec) <==>
                rec in prices || (Stores(before, rec) && KeyOf(rec) !in BatchKeys(prices))
      {
        UpsertStores(before, prices, rec);
      }
    }

    /** Removes every row. */
    method DeleteAll()
      modifies this
      ensures table == map[]
      ensures GetAll() == {} && GetDataBoundaries() == map[]
    {
      table := map[];
    }

    /**
     For each id with at least one stored record, its earliest and latest
     stored timestamp.
     */
    ghost function GetDataBoundaries(): (r: map<CoingeckoId, DataBoundary>)
      reads this
      ensures forall id :: id in r <==> exists t :: (id, t) in table
      ensures forall id :: id in r ==> (id, r[id].earliest) in table && (id, r[id].latest) in table
      ensures forall id, t :: id in r && (id, t) in table ==> r[id].earliest <= t <= r[id].latest
    {
      var groups := map id | id in StoredIds(table) :: BoundaryOf(table, id);
      assert forall id, t :: (id, t) in table ==> id in StoredIds(table);
      assert forall id, t :: id in groups && (id, t) in table ==> t in TimestampsOf(table, id);
      groups
    }
  }

  // ---------------------------------------------------------------------
  // Properties relating the reads

  /**
   `getAll()` as the source computes it: each stored record goes out as a row
   and comes back through `toRecord`.
   */
  lemma GetAllThroughRows(repo: PriceRepository)
    ensures forall rec :: rec in repo.GetAll() <==>
              exists k :: k in repo.table && ToRecord(ToRow(RecordAt(repo.table, k))) == Some(rec)
  {
    forall k | k in repo.table
      ensures ToRecord(ToRow(RecordAt(repo.table, k))) == Some(RecordAt(repo.table, k))
    {
      ToRecordInvertsToRow(RecordAt(repo.table, k));
    }
    forall rec | rec in repo.GetAll()
      ensures exists k :: k in repo.table && ToRecord(ToRow(RecordAt(repo.table, k))) == Some(rec)
    {
      assert rec == RecordAt(repo.table, KeyOf(rec));
    }
  }

  /** `getByTimestamp(t)` is the part of `getAll()` at timestamp `t`. */
  lemma ByTimestampFiltersAll(repo: PriceRepository, timestamp: UnixTime)
    ensures repo.GetByTimestamp(timestamp) == set rec | rec in repo.GetAll() && rec.timestamp == timestamp
  {
  }

  /**
   An id has a boundary exactly when `getAllByToken` returns records for it,
   and then the boundary is the least and greatest of those records' timestamps.
   */
  lemma BoundariesAgreeWithTokenReads(repo: PriceRepository, id: CoingeckoId)
    ensures id in repo.GetDataBoundaries() <==> repo.GetAllByToken(id) != {}
    ensures id in repo.GetDataBoundaries() ==>
              var b := repo.GetDataBoundaries()[id];
              && (exists rec :: rec in repo.GetAllByToken(id) && rec.timestamp == b.earliest)
              && (exists rec :: rec in repo.GetAllByToken(id) && rec.timestamp == b.latest)
              && (forall rec :: rec in repo.GetAllByToken(id) ==> b.earliest <= rec.timestamp <= b.latest)
  {
    var bounds := repo.GetDataBoundaries();
    var tokens := repo.GetAllByToken(id);
    if id in bounds {
      var b := bounds[id];
      var first := RecordAt(repo.table, (id, b.earliest));
      var last := RecordAt(repo.table, (id, b.latest));
      assert first in tokens && last in tokens;
    }
    if tokens != {} {
      var rec :| rec in tokens;
      assert (id, rec.timestamp) in repo.table;
    }
  }

  /**
   When `lo` and `hi` are stored timestamps of `id` and bound all of its
   stored timestamps, `getDataBoundaries()` reports exactly (lo, hi) for it.
   */
  lemma BoundaryIsMinMax(repo: PriceRepository, id: CoingeckoId, lo: UnixTime, hi: UnixTime)
    requires (id, lo) in repo.table && (id, hi) in repo.table
    requires forall t :: (id, t) in repo.table ==> lo <= t <= hi
    ensures id in repo.GetDataBoundaries()
    ensures repo.GetDataBoundaries()[id] == DataBoundary(lo, hi)
  {
    var b := repo.GetDataBoundaries()[id];
    assert b.earliest <= lo && hi <= b.latest;
  }

  /** Upserting a batch of two records with different keys, key by key. */
  lemma UpsertPair(t: Table, a: PriceRecord, b: PriceRecord)
    requires KeyOf(a) != KeyOf(b)
    ensures DistinctKeys([a, b])
    ensures forall k :: k in Upsert(t, [a, b]) <==> k in t || k == KeyOf(a) || k == KeyOf(b)
    ensures Upsert(t, [a, b])[KeyOf(a)] == a.priceUsd && Upsert(t, [a, b])[KeyOf(b)] == b.priceUsd
    ensures forall k :: k in t && k != KeyOf(a) && k != KeyOf(b) ==> Upsert(t, [a, b])[k] == t[k]
  {
    var batch := [a, b];
    assert batch[0] == a && batch[1] == b;
    assert BatchKeys(batch) == {KeyOf(a), KeyOf(b)};
  }

  /** The table after the two batches of the scenario below. */
  lemma TwoBatchUpserts(btc: CoingeckoId, eth: CoingeckoId) returns (t: Table)
    requires btc != eth
    ensures t == Upsert(Upsert(map[], [PriceRecord(btc, 50000.0, 100), PriceRecord(eth, 3000.0, 100)]),
                        [PriceRecord(btc, 51000.0, 100), PriceRecord(btc, 52000.0, 200)])
    ensures forall k :: k in t ==> k == (btc, 100) || k == (eth, 100) || k == (btc, 200)
    ensures (btc, 100) in t && t[(btc, 100)] == 51000.0
    ensures (btc, 200) in t && t[(btc, 200)] == 52000.0
    ensures (eth, 100) in t && t[(eth, 100)] == 3000.0
  {
    UpsertPair(map[], PriceRecord(btc, 50000.0, 100), PriceRecord(eth, 3000.0, 100));
    var t1 := Upsert(map[], [PriceRecord(btc, 50000.0, 100), PriceRecord(eth, 3000.0, 100)]);
    assert forall k :: k in t1 ==> k == (btc, 100) || k == (eth, 100);
    assert (eth, 100) in t1 && t1[(eth, 100)] == 3000.0;
    UpsertPair(t1, PriceRecord(btc, 51000.0, 100), PriceRecord(btc, 52000.0, 200));
    t := Upsert(t1, [PriceRecord(btc, 51000.0, 100), PriceRecord(btc, 52000.0, 200)]);
  }

  /** Two batches from the price history, read back per token and as boundaries. */
  method TwoBatchScenario()
  {
    var btc, eth := CoingeckoId("bitcoin"), CoingeckoId("ethereum");
    var repo := new PriceRepository(map[]);
    repo.AddOrUpdate([PriceRecord(btc, 50000.0, 100), PriceRecord(eth, 3000.0, 100)]);
    repo.AddOrUpdate([PriceRecord(btc, 51000.0, 100), PriceRecord(btc, 52000.0, 200)]);
    var t := TwoBatchUpserts(btc, eth);
    var unknown := CoingeckoId("dogecoin");
    ScenarioTokenReads(repo, btc, eth, unknown);
    ScenarioBoundaries(repo, btc, eth, unknown);
  }

  /** The table the two batches of the scenario leave behind. */
  ghost predicate ScenarioTable(t: Table, btc: CoingeckoId, eth: CoingeckoId)
  {
    && btc != eth
    && (forall k :: k in t ==> k == (btc, 100) || k == (eth, 100) || k == (btc, 200))
    && (btc, 100) in t && t[(btc, 100)] == 51000.0
    && (btc, 200) in t && t[(btc, 200)] == 52000.0
    && (eth, 100) in t && t[(eth, 100)] == 3000.0
  }

  /** On the scenario's table, the per-token read of each id. */
  lemma ScenarioTokenReads(repo: PriceRepository, btc: CoingeckoId, eth: CoingeckoId, unknown: CoingeckoId)
    requires ScenarioTable(repo.table, btc, eth) && unknown != btc && unknown != eth
    ensures repo.GetAllByToken(btc) == {PriceRecord(btc, 51000.0, 100), PriceRecord(btc, 52000.0, 200)}
    ensures repo.GetAllByToken(unknown) == {}
  {
    var low, high := PriceRecord(btc, 51000.0, 100), PriceRecord(btc, 52000.0, 200);
    var byToken := repo.GetAllByToken(btc);
    assert low in byToken && high in byToken;
    assert forall rec :: rec in byToken ==> rec == low || rec == high;
    assert forall rec :: rec !in repo.GetAllByToken(unknown);
  }

  /** On the scenario's table, the boundaries of each id. */
  lemma ScenarioBoundaries(repo: PriceRepository, btc: CoingeckoId, eth: CoingeckoId, unknown: CoingeckoId)
    requires ScenarioTable(repo.table, btc, eth) && unknown != btc && unknown != eth
    ensures repo.GetDataBoundaries()[btc] == DataBoundary(100, 200)
    ensures repo.GetDataBoundaries()[eth] == DataBoundary(100, 100)
    ensures unknown !in repo.GetDataBoundaries()
  {
    BoundaryIsMinMax(repo, btc, 100, 200);
    BoundaryIsMinMax(repo, eth, 100, 100);
  }
}
