/** The mempool's transaction storage: a bounded cache of verified unmined
    transactions, kept in insertion order, and a map from rejected
    transaction ids to the reason they were rejected. */
module MempoolStorage {
  import opened Wrappers

  /** The largest number of verified transactions the mempool keeps. */
  const MEMPOOL_SIZE: nat := 2

  type Hash = nat

  /** `UnminedTxId`: a legacy transaction is identified by its hash; a v5
      transaction by its non-malleable id and its authorizing-data digest. */
  datatype UnminedTxId =
    | Legacy(hash: Hash)
    | Witnessed(hash: Hash, authDigest: Hash)

  /** `UnminedTxId::mined_id`: the id that identifies the transaction's
      effects once mined, without its authorizing data. */
  function MinedId(id: UnminedTxId): Hash
  {
    id.hash
  }

  /** An unmined transaction: its id and the transparent outpoints and
      shielded nullifiers it spends. */
  datatype UnminedTx = UnminedTx(id: UnminedTxId, spends: set<nat>)

  datatype StorageRejectionError =
    | SpendConflict
    | Expired
    | RandomlyEvicted
    | FailedVerification(reason: string)

  /** The mempool errors `insert` returns: every storage rejection converts
      to `Rejected`. */
  datatype MempoolError = Rejected | InMempool

  /** Whether `txs` holds a transaction with id `id`. */
  predicate ContainsId(txs: seq<UnminedTx>, id: UnminedTxId)
  {
    exists i :: 0 <= i < |txs| && txs[i].id == id
  }

  /** Whether `tx` spends an outpoint or reveals a nullifier that a
      transaction of `txs` already spends or reveals. */
  predicate HasSpendConflicts(txs: seq<UnminedTx>, tx: UnminedTx)
  {
    exists i :: 0 <= i < |txs| && !(txs[i].spends !! tx.spends)
  }

  ghost predicate DistinctIds(txs: seq<UnminedTx>)
  {
    forall i, j :: 0 <= i < j < |txs| ==> txs[i].id != txs[j].id
  }

  ghost predicate NoSpendConflicts(txs: seq<UnminedTx>)
  {
    forall i, j :: 0 <= i < j < |txs| ==> txs[i].spends !! txs[j].spends
  }

  /** The last `n` elements of `s`, or all of `s` if it is shorter. */
  function LastN<T>(s: seq<T>, n: nat): (r: seq<T>)
    ensures |r| == if |s| <= n then |s| else n
    ensures r == s[|s| - |r|..]
  {
    if |s| <= n then s else s[|s| - n..]
  }

  /** `VerifiedSet::insert`: appends the transaction and evicts the oldest
      ones beyond MEMPOOL_SIZE. */
  function VerifiedInsert(txs: seq<UnminedTx>, tx: UnminedTx): (r: seq<UnminedTx>)
    ensures |r| <= MEMPOOL_SIZE || |r| == |txs| + 1
    ensures |r| > 0 && r[|r| - 1] == tx
  {
    LastN(txs + [tx], MEMPOOL_SIZE)
  }

  /** The transactions of `txs` that `keep` accepts, in their order. */
  function Filter(txs: seq<UnminedTx>, keep: UnminedTx -> bool): (r: seq<UnminedTx>)
    ensures |r| <= |txs|
    ensures forall t :: t in r <==> t in txs && keep(t)
  {
    if |txs| == 0 then []
    else if keep(txs[0]) then [txs[0]] + Filter(txs[1..], keep)
    else Filter(txs[1..], keep)
  }

  /** The test `transactions` and `remove_exact` apply: the exact id is
      one of `ids`. */
  function IdIn(ids: set<UnminedTxId>): UnminedTx -> bool
  {
    (t: UnminedTx) => t.id in ids
  }

  /** The test `remove_same_effects` applies: the mined id is one of
      `minedIds`. */
  function MinedIdIn(minedIds: set<Hash>): UnminedTx -> bool
  {
    (t: UnminedTx) => MinedId(t.id) in minedIds
  }

  /** The number of transactions of `txs` that `matches` accepts. */
  function CountMatching(txs: seq<UnminedTx>, matches: UnminedTx -> bool): nat
  {
    if |txs| == 0 then 0
    else (if matches(txs[0]) then 1 else 0) + CountMatching(txs[1..], matches)
  }

  /** The contents of a `Storage`, as a value. */
  datatype Pool = Pool(verified: seq<UnminedTx>, rejected: map<UnminedTxId, StorageRejectionError>)
  {
    /** The cache is bounded, holds each id once and holds no two
        transactions that spend the same outpoint or nullifier. */
    ghost predicate Valid()
    {
      |verified| <= MEMPOOL_SIZE && DistinctIds(verified) && NoSpendConflicts(verified)
    }
  }

  /** `Storage::insert` on a value: a cached rejection is returned first,
      then a transaction already present is refused, then a spend conflict
      is recorded and refused; otherwise the transaction goes into the
      verified cache. */
  function InsertPool(p: Pool, tx: UnminedTx): (Pool, Result<UnminedTxId, MempoolError>)
  {
    if tx.id in p.rejected then (p, Err(Rejected))
    else if ContainsId(p.verified, tx.id) then (p, Err(InMempool))
    else if HasSpendConflicts(p.verified, tx) then
      (p.(rejected := p.rejected[tx.id := SpendConflict]), Err(Rejected))
    else (p.(verified := VerifiedInsert(p.verified, tx)), Ok(tx.id))
  }

  /** A transaction with a cached rejection is refused and nothing changes. */
  lemma InsertCachedRejection(p: Pool, tx: UnminedTx)
    requires tx.id in p.rejected
    ensures InsertPool(p, tx) == (p, Err(Rejected))
  {
  }

  /** A transaction already in the cache is refused as `InMempool` and
      nothing changes: entries are never refreshed. */
  lemma InsertDuplicate(p: Pool, tx: UnminedTx)
    requires tx.id !in p.rejected && ContainsId(p.verified, tx.id)
    ensures InsertPool(p, tx) == (p, Err(InMempool))
  {
  }

  /** A transaction that conflicts with a cached one is refused, and its id
      is recorded as a spend conflict; the cache does not change. */
  lemma InsertSpendConflict(p: Pool, tx: UnminedTx, i: nat)
    requires tx.id !in p.rejected && !ContainsId(p.verified, tx.id)
    requires i < |p.verified| && !(p.verified[i].spends !! tx.spends)
    ensures var (q, r) := InsertPool(p, tx);
      && r == Err(Rejected)
      && q.verified == p.verified
      && q.rejected == p.rejected[tx.id := SpendConflict]
      && q.rejected[tx.id] == SpendConflict
  {
  }

  /** Any other transaction is accepted with its id; afterwards it is the
      newest cached transaction, the others keep their order with the
      oldest evicted beyond MEMPOOL_SIZE, and the rejections do not change
      (an evicted transaction is not recorded as rejected). */
  lemma InsertAccepted(p: Pool, tx: UnminedTx)
    requires tx.id !in p.rejected && !ContainsId(p.verified, tx.id)
    requires !HasSpendConflicts(p.verified, tx)
    ensures var (q, r) := InsertPool(p, tx);
      && r == Ok(tx.id)
      && ContainsId(q.verified, tx.id)
      && q.verified == LastN(p.verified + [tx], MEMPOOL_SIZE)
      && q.rejected == p.rejected
  {
    var q := InsertPool(p, tx).0;
    assert q.verified[|q.verified| - 1].id == tx.id;
  }

  /** Whatever `insert` does, the cache stays bounded, free of duplicate
      ids and free of spend conflicts. */
  lemma InsertKeepsValid(p: Pool, tx: UnminedTx)
    requires p.Valid()
    ensures InsertPool(p, tx).0.Valid()
    ensures |InsertPool(p, tx).0.verified| <= MEMPOOL_SIZE
  {
    if tx.id !in p.rejected && !ContainsId(p.verified, tx.id) && !HasSpendConflicts(p.verified, tx) {
      var s := p.verified + [tx];
      assert DistinctIds(s) && NoSpendConflicts(s) by {
        forall i, j | 0 <= i < j < |s|
          ensures s[i].id != s[j].id && s[i].spends !! s[j].spends
        {
          if j == |s| - 1 {
            assert s[i] == p.verified[i];
          }
        }
      }
      SuffixKeepsValid(s, |s| - |LastN(s, MEMPOOL_SIZE)|);
    }
  }

  lemma SuffixKeepsValid(s: seq<UnminedTx>, k: nat)
    requires k <= |s| && DistinctIds(s) && NoSpendConflicts(s)
    ensures DistinctIds(s[k..]) && NoSpendConflicts(s[k..])
  {
    forall i, j | 0 <= i < j < |s[k..]|
      ensures s[k..][i].id != s[k..][j].id && s[k..][i].spends !! s[k..][j].spends
    {
      assert s[k..][i] == s[k + i] && s[k..][j] == s[k + j];
    }
  }

  /** Keeping the last `n` twice is keeping the last `n` once. */
  lemma LastNOfLastN<T>(a: seq<T>, b: seq<T>, n: nat)
    ensures LastN(LastN(a, n) + b, n) == LastN(a + b, n)
  {
    var la := LastN(a, n);
    assert la + b == (a + b)[|a| - |la|..];
  }

  /** Inserts a run of transactions in order, one `insert` after another. */
  function InsertAll(p: Pool, txs: seq<UnminedTx>): Pool
    decreases |txs|
  {
    if |txs| == 0 then p else InsertAll(InsertPool(p, txs[0]).0, txs[1..])
  }

  /** Inserting a run of transactions that are new, never rejected, and do
      not conflict with each other or with the cache leaves exactly the
      last MEMPOOL_SIZE of the cache followed by the run, and no new
      rejection. */
  lemma {:induction false} InsertRunKeepsLast(p: Pool, txs: seq<UnminedTx>)
    requires |p.verified| <= MEMPOOL_SIZE
    requires DistinctIds(p.verified + txs) && NoSpendConflicts(p.verified + txs)
    requires forall i :: 0 <= i < |txs| ==> txs[i].id !in p.rejected
    ensures InsertAll(p, txs) == Pool(LastN(p.verified + txs, MEMPOOL_SIZE), p.rejected)
    decreases |txs|
  {
    if |txs| > 0 {
      var q := InsertPool(p, txs[0]).0;
      InsertRunHead(p, txs);
      InsertRunKeepsLast(q, txs[1..]);
      LastNOfLastN(p.verified + [txs[0]], txs[1..], MEMPOOL_SIZE);
      assert p.verified + [txs[0]] + txs[1..] == p.verified + txs;
    }
  }

  /** The first transaction of a run that extends a duplicate-free,
      conflict-free cache is new to the cache and conflicts with none of it. */
  lemma FreshHead(v: seq<UnminedTx>, txs: seq<UnminedTx>)
    requires |txs| > 0
    requires DistinctIds(v + txs) && NoSpendConflicts(v + txs)
    ensures !ContainsId(v, txs[0].id) && !HasSpendConflicts(v, txs[0])
  {
    var s := v + txs;
    forall i | 0 <= i < |v| ensures v[i].id != txs[0].id && v[i].spends !! txs[0].spends {
      assert s[i] == v[i] && s[|v|] == txs[0];
    }
  }

  /** The first transaction of such a run is accepted, and the rest of the
      run meets the same conditions against the new cache. */
  lemma InsertRunHead(p: Pool, txs: seq<UnminedTx>)
    requires |txs| > 0
    requires DistinctIds(p.verified + txs) && NoSpendConflicts(p.verified + txs)
    requires forall i :: 0 <= i < |txs| ==> txs[i].id !in p.rejected
    ensures var q := InsertPool(p, txs[0]).0;
      && q == Pool(LastN(p.verified + [txs[0]], MEMPOOL_SIZE), p.rejected)
      && |q.verified| <= MEMPOOL_SIZE
      && DistinctIds(q.verified + txs[1..]) && NoSpendConflicts(q.verified + txs[1..])
      && (forall i :: 0 <= i < |txs[1..]| ==> txs[1..][i].id !in q.rejected)
  {
    var v := p.verified;
    var tx := txs[0];
    var s := v + txs;
    FreshHead(v, txs);
    InsertAccepted(p, tx);
    var q := InsertPool(p, tx).0;
    var k := |v + [tx]| - |q.verified|;
    assert q.verified + txs[1..] == s[k..];
    SuffixKeepsValid(s, k);
  }

  /** Starting from an empty cache, a run of at least MEMPOOL_SIZE fresh,
      non-conflicting transactions leaves exactly its last MEMPOOL_SIZE
      transactions cached and none of the earlier ones. */
  lemma InsertRunFromEmpty(rejected: map<UnminedTxId, StorageRejectionError>, txs: seq<UnminedTx>)
    requires |txs| >= MEMPOOL_SIZE
    requires DistinctIds(txs) && NoSpendConflicts(txs)
    requires forall i :: 0 <= i < |txs| ==> txs[i].id !in rejected
    ensures var q := InsertAll(Pool([], rejected), txs);
      && |q.verified| == MEMPOOL_SIZE
      && (forall i :: |txs| - MEMPOOL_SIZE <= i < |txs| ==> ContainsId(q.verified, txs[i].id))
      && (forall i :: 0 <= i < |txs| - MEMPOOL_SIZE ==> !ContainsId(q.verified, txs[i].id))
  {
    var k := |txs| - MEMPOOL_SIZE;
    var q := InsertAll(Pool([], rejected), txs);
    assert q.verified == txs[k..] by {
      assert [] + txs == txs;
      InsertRunKeepsLast(Pool([], rejected), txs);
    }
    SuffixMembers(txs, k);
  }

  /** The ids in a suffix of a run with distinct ids are exactly the ids
      of that suffix's transactions. */
  lemma SuffixMembers(txs: seq<UnminedTx>, k: nat)
    requires DistinctIds(txs) && k <= |txs|
    ensures forall i :: k <= i < |txs| ==> ContainsId(txs[k..], txs[i].id)
    ensures forall i :: 0 <= i < k ==> !ContainsId(txs[k..], txs[i].id)
  {
    forall i | k <= i < |txs| ensures ContainsId(txs[k..], txs[i].id) {
      assert txs[k..][i - k] == txs[i];
    }
    forall i | 0 <= i < k ensures !ContainsId(txs[k..], txs[i].id) {
      NotInSuffix(txs, k, i);
    }
  }

  lemma NotInSuffix(txs: seq<UnminedTx>, k: nat, i: nat)
    requires DistinctIds(txs) && i < k <= |txs|
    ensures !ContainsId(txs[k..], txs[i].id)
  {
    forall j | 0 <= j < |txs[k..]| ensures txs[k..][j].id != txs[i].id {
      assert txs[k..][j] == txs[k + j];
    }
  }

  /** `VerifiedSet::remove_all_that` on a value: the transactions `matches`
      rejects, in their order. */
  function RemoveAllThat(txs: seq<UnminedTx>, matches: UnminedTx -> bool): (r: seq<UnminedTx>)
    ensures |r| + CountMatching(txs, matches) == |txs|
    ensures forall t :: t in r <==> t in txs && !matches(t)
    ensures DistinctIds(txs) && NoSpendConflicts(txs) ==> DistinctIds(r) && NoSpendConflicts(r)
  {
    var keep := (t: UnminedTx) => !matches(t);
    var r := Filter(txs, keep);
    FilterCount(txs, matches);
    FilterKeepsValid(txs, keep);
    r
  }

  lemma {:induction false} FilterCount(txs: seq<UnminedTx>, matches: UnminedTx -> bool)
    ensures |Filter(txs, (t: UnminedTx) => !matches(t))| + CountMatching(txs, matches) == |txs|
  {
    if |txs| > 0 {
      FilterCount(txs[1..], matches);
    }
  }

  /** Filtering a concatenation filters each part: the kept transactions
      keep their relative order. */
  lemma {:induction false} FilterConcat(a: seq<UnminedTx>, b: seq<UnminedTx>, keep: UnminedTx -> bool)
    ensures Filter(a + b, keep) == Filter(a, keep) + Filter(b, keep)
  {
    if |a| > 0 {
      assert (a + b)[0] == a[0] && (a + b)[1..] == a[1..] + b;
      FilterConcat(a[1..], b, keep);
    } else {
      assert a + b == b;
    }
  }

  /** Filtering keeps a valid cache valid. */
  lemma {:induction false} FilterKeepsValid(txs: seq<UnminedTx>, keep: UnminedTx -> bool)
    ensures DistinctIds(txs) && NoSpendConflicts(txs) ==>
      DistinctIds(Filter(txs, keep)) && NoSpendConflicts(Filter(txs, keep))
  {
    if |txs| > 0 && DistinctIds(txs) && NoSpendConflicts(txs) {
      SuffixKeepsValid(txs, 1);
      FilterKeepsValid(txs[1..], keep);
      var rest := Filter(txs[1..], keep);
      if keep(txs[0]) {
        var r := [txs[0]] + rest;
        forall i, j | 0 <= i < j < |r|
          ensures r[i].id != r[j].id && r[i].spends !! r[j].spends
        {
          if i == 0 {
            assert r[j] in txs[1..];
            var k :| 0 <= k < |txs[1..]| && txs[1..][k] == r[j];
            assert txs[k + 1] == r[j];
          } else {
            assert r[i] == rest[i - 1] && r[j] == rest[j - 1];
          }
        }
      }
    }
  }

  /** A filter that keeps everything returns the whole sequence. */
  lemma {:induction false} FilterAll(txs: seq<UnminedTx>, keep: UnminedTx -> bool)
    requires forall t :: t in txs ==> keep(t)
    ensures Filter(txs, keep) == txs
  {
    if |txs| > 0 {
      assert forall t :: t in txs[1..] ==> t in txs;
      FilterAll(txs[1..], keep);
    }
  }

  /** The mempool storage: the verified cache in insertion order and the
      rejection reasons by transaction id. */
  class Storage {
    var verified: seq<UnminedTx>
    var rejected: map<UnminedTxId, StorageRejectionError>

    ghost predicate Valid()
      reads this
    {
      Pool(verified, rejected).Valid()
    }

    /** `Storage::default`: nothing cached, nothing rejected. */
    constructor ()
      ensures Valid()
      ensures verified == [] && rejected == map[]
    {
      verified := [];
      rejected := map[];
    }

    /** `Storage::insert`, proved against `InsertPool`. */
    method Insert(tx: UnminedTx) returns (r: Result<UnminedTxId, MempoolError>)
      requires Valid()
      modifies this
      ensures Valid()
      ensures (Pool(verified, rejected), r) == InsertPool(old(Pool(verified, rejected)), tx)
      ensures r.Ok? ==> Contains(tx.id)
    {
      InsertKeepsValid(Pool(verified, rejected), tx);
      if tx.id in rejected {
        return Err(Rejected);
      }
      if ContainsId(verified, tx.id) {
        return Err(InMempool);
      }
      if HasSpendConflicts(verified, tx) {
        rejected := rejected[tx.id := SpendConflict];
        return Err(Rejected);
      }
      verified := VerifiedInsert(verified, tx);
      InsertAccepted(old(Pool(verified, rejected)), tx);
      return Ok(tx.id);
    }

    /** `Storage::contains`: whether a transaction with this exact id is
        cached. */
    predicate Contains(txid: UnminedTxId)
      reads this
      ensures Contains(txid) <==> txid in TxIds()
    {
      ContainsId(verified, txid)
    }

    /** `Storage::remove_exact`: removes the cached transactions whose exact
        id is in `exactIds` and returns how many were removed; the others
        keep their order and the rejections do not change. */
    method RemoveExact(exactIds: set<UnminedTxId>) returns (removed: nat)
      requires Valid()
      modifies this
      ensures Valid()
      ensures verified == RemoveAllThat(old(verified), IdIn(exactIds))
      ensures removed == CountMatching(old(verified), IdIn(exactIds))
      ensures forall id :: id in exactIds ==> !Contains(id)
      ensures rejected == old(rejected)
    {
      var before := |verified|;
      verified := RemoveAllThat(verified, IdIn(exactIds));
      removed := before - |verified|;
    }

    /** `Storage::remove_same_effects`: removes the cached transactions
        whose mined id is in `minedIds`, whatever their authorizing data,
        and returns how many were removed; the others keep their order and
        the rejections do not change. */
    method RemoveSameEffects(minedIds: set<Hash>) returns (removed: nat)
      requires Valid()
      modifies this
      ensures Valid()
      ensures verified == RemoveAllThat(old(verified), MinedIdIn(minedIds))
      ensures removed == CountMatching(old(verified), MinedIdIn(minedIds))
      ensures forall t :: t in verified ==> MinedId(t.id) !in minedIds
      ensures rejected == old(rejected)
    {
      var before := |verified|;
      verified := RemoveAllThat(verified, MinedIdIn(minedIds));
      removed := before - |verified|;
    }

    /** `Storage::tx_ids`: the ids of the cached transactions, in order. */
    function TxIds(): (ids: seq<UnminedTxId>)
      reads this
      ensures |ids| == |verified|
      ensures forall i :: 0 <= i < |ids| ==> ids[i] == verified[i].id
    {
      seq(|verified|, i requires 0 <= i < |verified| reads this => verified[i].id)
    }

    /** `Storage::transactions`: exactly the cached transactions whose id is
        in `txIds`, in cache order. */
    function Transactions(txIds: set<UnminedTxId>): (txs: seq<UnminedTx>)
      reads this
      ensures forall t :: t in txs <==> t in verified && t.id in txIds
    {
      Filter(verified, IdIn(txIds))
    }

    /** `Storage::transactions_all`: every cached transaction, in order. */
    function TransactionsAll(): (txs: seq<UnminedTx>)
      reads this
      ensures txs == Transactions(set t | t in verified :: t.id)
    {
      var v := verified;
      FilterAll(v, IdIn(set t | t in v :: t.id));
      v
    }

    /** `Storage::contains_rejected`. */
    predicate ContainsRejected(txid: UnminedTxId)
      reads this
      ensures ContainsRejected(txid) <==> RejectionError(txid).Some?
    {
      txid in rejected
    }

    /** `Storage::rejection_error`: the stored reason, if any. */
    function RejectionError(txid: UnminedTxId): (e: Option<StorageRejectionError>)
      reads this
      ensures e.Some? <==> txid in rejected
      ensures e.Some? ==> e.value == rejected[txid]
    {
      if txid in rejected then Some(rejected[txid]) else None
    }

    /** `Storage::rejected_transactions`: exactly the given ids that have a
        stored rejection. */
    function RejectedTransactions(txIds: set<UnminedTxId>): (ids: set<UnminedTxId>)
      reads this
      ensures forall id :: id in ids <==> id in txIds && ContainsRejected(id)
    {
      set id | id in txIds && id in rejected
    }

    /** `Storage::clear`: empties the cache; the rejections are kept. */
    method Clear()
      requires Valid()
      modifies this
      ensures Valid()
      ensures verified == [] && rejected == old(rejected)
    {
      verified := [];
    }
  }
}
