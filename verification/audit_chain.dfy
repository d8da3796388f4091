/**
 The audit signature chain (db/db_audit_chain.py): one hash chain per signed table,
 interleaved in one database table, with key rotation and a verifier.

 A signature is a free term in place of HMAC-SHA-256 (section 2 of RFC 2104) or of the
 plain SHA-256 link: two signatures are equal only when key, predecessor and payload are.
 */
module AuditChain {
  import opened Wrappers
  import opened Text

  type Hash = string

  type Secret = string

  /** `record_signature`; Empty is the empty string before the first record of a table. */
  datatype Signature = Empty | Signed(key: Option<Secret>, prev: Signature, payload: Hash)

  /** One row of audit_chain; its id is its position, since ids only grow. */
  datatype Row = Row(table: string, recordId: string, operation: string, payloadHash: Hash,
                     prev: Signature, signature: Signature, keyId: string)

  /** One row of audit_key_rotations, filed under its key id. */
  datatype Key = Key(secret: Secret, active: bool)

  /** Both tables, and the key from the environment or the key file. */
  datatype Audit = Audit(chain: seq<Row>, keys: map<string, Key>, envKey: Option<Secret>)

  /******* Keys *******/

  predicate SomeActive(keys: map<string, Key>) {
    exists k :: k in keys && keys[k].active
  }

  predicate OneActiveAtMost(keys: map<string, Key>) {
    forall k, l :: k in keys && l in keys && keys[k].active && keys[l].active ==> k == l
  }

  /** What `_get_active_signing_key` may answer: any active key, else the environment key, else none. */
  predicate MaySignWith(a: Audit, keyId: string, key: Option<Secret>) {
    if SomeActive(a.keys) then
      keyId in a.keys && a.keys[keyId].active && key == Some(a.keys[keyId].secret)
    else if a.envKey.Some? then keyId == "hmac" && key == a.envKey
    else keyId == "local" && key == None
  }

  /** `_lookup_signing_key` */
  function LookupSigningKey(a: Audit, keyId: string): Option<Secret> {
    if keyId == "local" then None
    else if keyId in a.keys then Some(a.keys[keyId].secret)
    else if keyId == "hmac" then a.envKey
    else None
  }

  /** The tables after a rotation to a key id that is already stripped. */
  function Rotated(a: Audit, keyId: string, secret: Secret): Audit {
    a.(keys := (map k | k in a.keys :: a.keys[k].(active := false))[keyId := Key(secret, true)])
  }

  /** After a rotation the new key signs, and its rows are checked with it. */
  lemma RotatedKeySigns(a: Audit, newId: string, secret: Secret, keyId: string, key: Option<Secret>)
    ensures MaySignWith(Rotated(a, newId, secret), keyId, key) <==> keyId == newId && key == Some(secret)
    ensures newId != "local" ==> LookupSigningKey(Rotated(a, newId, secret), newId) == Some(secret)
    ensures keyId != newId ==> LookupSigningKey(Rotated(a, newId, secret), keyId) == LookupSigningKey(a, keyId)
  {
    var b := Rotated(a, newId, secret);
    assert newId in b.keys && b.keys[newId].active;
  }

  /******* Signing *******/

  /** The signature of the last of the first n rows that belong to a table. */
  function LastSignature(chain: seq<Row>, n: nat, table: string): Signature
    requires n <= |chain|
  {
    if n == 0 then Empty
    else if chain[n - 1].table == table then chain[n - 1].signature
    else LastSignature(chain, n - 1, table)
  }

  /** It is the signature of the row of the table that has none of the table behind it. */
  lemma LastSignatureMeans(chain: seq<Row>, n: nat, table: string, i: nat)
    requires i < n <= |chain| && chain[i].table == table
    requires forall k :: i < k < n ==> chain[k].table != table
    ensures LastSignature(chain, n, table) == chain[i].signature
  {
    NoRowOfTable(chain, table, i + 1, n);
  }

  function NewRow(a: Audit, table: string, recordId: string, operation: string, payloadHash: Hash,
                  keyId: string, key: Option<Secret>): Row
  {
    var prev := LastSignature(a.chain, |a.chain|, table);
    Row(table, recordId, operation, payloadHash, prev, Signed(key, prev, payloadHash), keyId)
  }

  /******* Verifying *******/

  datatype Reason = ChainBroken | SignatureMismatch | FirstPrevNotEmpty

  /** The signature test for one row, with the key its id leads to today. */
  predicate SignatureOk(a: Audit, row: Row) {
    var key := LookupSigningKey(a, row.keyId);
    (row.keyId == "local" || key.Some?) && row.signature == Signed(key, row.prev, row.payloadHash)
  }

  function Reasons(a: Audit, row: Row, expectedPrev: Signature): seq<Reason> {
    (if row.prev != expectedPrev then [ChainBroken] else []) +
    (if SignatureOk(a, row) then [] else [SignatureMismatch]) +
    (if expectedPrev == Empty && row.prev != Empty then [FirstPrevNotEmpty] else [])
  }

  /** What is wrong with row i, seen with all the rows before it. */
  function ReasonsAt(a: Audit, i: nat): seq<Reason>
    requires i < |a.chain|
  {
    Reasons(a, a.chain[i], LastSignature(a.chain, i, a.chain[i].table))
  }

  predicate Broken(a: Audit, i: nat)
    requires i < |a.chain|
  {
    ReasonsAt(a, i) != []
  }

  predicate NothingBroken(a: Audit) {
    forall i :: 0 <= i < |a.chain| ==> !Broken(a, i)
  }

  /** A row passes when it continues its chain and its signature is the one to expect. */
  lemma BrokenMeans(a: Audit, i: nat)
    requires i < |a.chain|
    ensures Broken(a, i) <==>
            a.chain[i].prev != LastSignature(a.chain, i, a.chain[i].table) || !SignatureOk(a, a.chain[i])
  {
  }

  /** Row i is asked for: the table is the given one, or no table was given. */
  predicate Asked(chain: seq<Row>, table: string, i: nat)
    requires i < |chain|
  {
    table == "" || chain[i].table == table
  }

  /** The ids among the first n that a query for a table finds, in order. */
  function Matching(chain: seq<Row>, table: string, n: nat): (ids: seq<nat>)
    requires n <= |chain|
    ensures forall k :: 0 <= k < |ids| ==> ids[k] < n
  {
    if n == 0 then []
    else if Asked(chain, table, n - 1) then Matching(chain, table, n - 1) + [n - 1]
    else Matching(chain, table, n - 1)
  }

  lemma {:induction false} MatchingLists(chain: seq<Row>, table: string, n: nat)
    requires n <= |chain|
    ensures forall i :: i in Matching(chain, table, n) <==> 0 <= i < n && Asked(chain, table, i)
  {
    if n > 0 {
      MatchingLists(chain, table, n - 1);
    }
  }

  /** The rows asked for among the first n. */
  function AskedRows(chain: seq<Row>, table: string, n: nat): set<nat>
    requires n <= |chain|
  {
    set i: nat | i < n && Asked(chain, table, i)
  }

  /** The k-th id found has k rows asked for before it, and there are as many ids as rows asked for. */
  lemma {:induction false} MatchingCounts(chain: seq<Row>, table: string, n: nat)
    requires n <= |chain|
    ensures var ids := Matching(chain, table, n);
            && |ids| == |AskedRows(chain, table, n)|
            && (forall k :: 0 <= k < |ids| ==> |AskedRows(chain, table, ids[k])| == k)
            && (forall k, l :: 0 <= k < l < |ids| ==> ids[k] < ids[l])
  {
    if n > 0 {
      MatchingCounts(chain, table, n - 1);
      var more := if Asked(chain, table, n - 1) then {n - 1} else {};
      assert AskedRows(chain, table, n) == AskedRows(chain, table, n - 1) + more;
    }
  }

  /** How many of some rows a limit leaves; a negative limit is none. */
  function AtMost(rows: nat, limit: int): nat {
    if 0 <= limit < rows then limit else rows
  }

  /** Fewer than the limit of the rows asked for stand before row i. */
  predicate Within(chain: seq<Row>, table: string, limit: int, i: nat)
    requires i < |chain|
  {
    limit < 0 || |AskedRows(chain, table, i)| < limit
  }

  /** A limit selects the first rows asked for. */
  lemma ExaminedAre(a: Audit, table: string, limit: int)
    ensures var ids := Examined(a, table, limit);
            && |ids| == AtMost(|AskedRows(a.chain, table, |a.chain|)|, limit)
            && (forall i :: i in ids <==>
                  0 <= i < |a.chain| && Asked(a.chain, table, i) && Within(a.chain, table, limit, i))
            && (forall k, l :: 0 <= k < l < |ids| ==> ids[k] < ids[l])
  {
    var all, ids := Matching(a.chain, table, |a.chain|), Examined(a, table, limit);
    MatchingLists(a.chain, table, |a.chain|);
    MatchingCounts(a.chain, table, |a.chain|);
    assert ids <= all;
    forall i | 0 <= i < |a.chain| && Asked(a.chain, table, i) ensures i in ids <==> Within(a.chain, table, limit, i) {
      assert i in all;
      var k :| 0 <= k < |all| && all[k] == i;
      assert k < |ids| ==> ids[k] == i;
    }
  }

  /** SQLite's LIMIT: a negative limit is no limit. */
  function Limited(ids: seq<nat>, limit: int): seq<nat> {
    if limit < 0 || limit > |ids| then ids else ids[..limit]
  }

  datatype BrokenRow = BrokenRow(id: nat, reasons: seq<Reason>)

  datatype Report = Report(total: nat, verified: nat, broken: seq<BrokenRow>)

  /** The broken ones among some rows, in order. */
  function BrokenAmong(a: Audit, ids: seq<nat>): seq<BrokenRow>
    requires forall k :: 0 <= k < |ids| ==> ids[k] < |a.chain|
  {
    if ids == [] then []
    else
      var n := |ids| - 1;
      BrokenAmong(a, ids[..n]) + if Broken(a, ids[n]) then [BrokenRow(ids[n], ReasonsAt(a, ids[n]))] else []
  }

  lemma {:induction false} BrokenAmongLists(a: Audit, ids: seq<nat>)
    requires forall k :: 0 <= k < |ids| ==> ids[k] < |a.chain|
    ensures forall b :: b in BrokenAmong(a, ids) <==>
              b.id in ids && Broken(a, b.id) && b.reasons == ReasonsAt(a, b.id)
  {
    if ids != [] {
      BrokenAmongLists(a, ids[..|ids| - 1]);
    }
  }

  lemma {:induction false} BrokenInOrder(a: Audit, ids: seq<nat>)
    requires forall k :: 0 <= k < |ids| ==> ids[k] < |a.chain|
    requires forall k, l :: 0 <= k < l < |ids| ==> ids[k] < ids[l]
    ensures var bs := BrokenAmong(a, ids); forall k, l :: 0 <= k < l < |bs| ==> bs[k].id < bs[l].id
  {
    if ids != [] {
      var before := ids[..|ids| - 1];
      BrokenInOrder(a, before);
      BrokenAmongLists(a, before);
      assert forall b :: b in BrokenAmong(a, before) ==> b.id in before && b.id < ids[|before|];
    }
  }

  /** The rows a call of the verifier looks at. */
  function Examined(a: Audit, table: string, limit: int): seq<nat> {
    Limited(Matching(a.chain, table, |a.chain|), limit)
  }

  lemma {:induction false} NoRowOfTable(chain: seq<Row>, table: string, i: nat, n: nat)
    requires i <= n <= |chain| && forall k :: i <= k < n ==> chain[k].table != table
    ensures LastSignature(chain, n, table) == LastSignature(chain, i, table)
  {
    if i < n {
      NoRowOfTable(chain, table, i, n - 1);
    }
  }

  /** The first id that can come after the first k of some ids. */
  function After(ids: seq<nat>, k: nat): nat
    requires k <= |ids|
  {
    if k == 0 then 0 else ids[k - 1] + 1
  }

  /** No row from `from` up to `to` was asked for. */
  predicate Gap(chain: seq<Row>, table: string, from: nat, to: nat) {
    from <= to <= |chain| && forall i :: from <= i < to ==> !Asked(chain, table, i)
  }

  lemma {:induction false} GapBehind(chain: seq<Row>, table: string, n: nat)
    requires n <= |chain|
    ensures var ids := Matching(chain, table, n); Gap(chain, table, After(ids, |ids|), n)
  {
    if n > 0 {
      GapBehind(chain, table, n - 1);
    }
  }

  lemma {:induction false} GapBefore(chain: seq<Row>, table: string, n: nat, k: nat)
    requires n <= |chain| && k < |Matching(chain, table, n)|
    ensures var ids := Matching(chain, table, n); Gap(chain, table, After(ids, k), ids[k])
  {
    var before := Matching(chain, table, n - 1);
    if k < |before| {
      GapBefore(chain, table, n - 1, k);
    } else {
      GapBehind(chain, table, n - 1);
    }
  }

  /** What the verifier remembers before row k: for each table asked for, its last signature so far. */
  ghost predicate Remembers(a: Audit, table: string, n: nat, prevMap: map<string, Signature>) {
    n <= |a.chain| &&
    forall t :: table == "" || t == table ==>
      LastSignature(a.chain, n, t) == Recall(prevMap, t)
  }

  lemma RememberOver(a: Audit, table: string, from: nat, n: nat, prevMap: map<string, Signature>)
    requires Remembers(a, table, from, prevMap) && Gap(a.chain, table, from, n)
    ensures Remembers(a, table, n, prevMap)
  {
    forall t | table == "" || t == table
      ensures LastSignature(a.chain, n, t) == LastSignature(a.chain, from, t)
    {
      forall i | from <= i < n ensures a.chain[i].table != t {
        assert !Asked(a.chain, table, i);
      }
      NoRowOfTable(a.chain, t, from, n);
    }
  }

  function Recall(prevMap: map<string, Signature>, table: string): Signature {
    if table in prevMap then prevMap[table] else Empty
  }

  /** One turn of the verifier's loop: the remembered signature is the one to expect, before and after. */
  lemma VerifyStep(a: Audit, table: string, k: nat, prevMap: map<string, Signature>)
    requires var all := Matching(a.chain, table, |a.chain|);
             k < |all| && Remembers(a, table, After(all, k), prevMap)
    ensures var all := Matching(a.chain, table, |a.chain|); var row := a.chain[all[k]];
            && Recall(prevMap, row.table) == LastSignature(a.chain, all[k], row.table)
            && Remembers(a, table, After(all, k + 1), prevMap[row.table := row.signature])
  {
    var all := Matching(a.chain, table, |a.chain|);
    MatchingLists(a.chain, table, |a.chain|);
    GapBefore(a.chain, table, |a.chain|, k);
    var n := all[k];
    RememberOver(a, table, After(all, k), n, prevMap);
    assert n in all;
    var row, next := a.chain[n], n + 1;
    forall t | table == "" || t == table
      ensures LastSignature(a.chain, next, t) == Recall(prevMap[row.table := row.signature], t)
    {
      assert LastSignature(a.chain, n, t) == Recall(prevMap, t);
    }
  }

  /******* Reports *******/

  lemma {:induction false} NoneBrokenAmong(a: Audit, ids: seq<nat>)
    requires NothingBroken(a) && forall k :: 0 <= k < |ids| ==> ids[k] < |a.chain|
    ensures BrokenAmong(a, ids) == []
  {
    if ids != [] {
      NoneBrokenAmong(a, ids[..|ids| - 1]);
    }
  }

  /** With nothing broken, every report is clean, whatever the table and the limit. */
  lemma CleanReports(a: Audit, table: string, limit: int)
    requires NothingBroken(a)
    ensures BrokenAmong(a, Examined(a, table, limit)) == []
  {
    NoneBrokenAmong(a, Examined(a, table, limit));
  }

  /** Unlimited, the report on all tables is the union of the reports on the single tables. */
  lemma FullReportIsUnion(a: Audit, b: BrokenRow)
    requires forall i :: 0 <= i < |a.chain| ==> a.chain[i].table != ""
    ensures b in BrokenAmong(a, Examined(a, "", -1)) <==>
            exists table :: table != "" && b in BrokenAmong(a, Examined(a, table, -1))
  {
    forall table ensures b in BrokenAmong(a, Examined(a, table, -1)) <==>
                         b.id < |a.chain| && Asked(a.chain, table, b.id) && Broken(a, b.id) && b.reasons == ReasonsAt(a, b.id)
    {
      MatchingLists(a.chain, table, |a.chain|);
      BrokenAmongLists(a, Examined(a, table, -1));
    }
    if b.id < |a.chain| {
      assert Asked(a.chain, a.chain[b.id].table, b.id);
    }
  }

  /** Row i has an entry among some broken rows. */
  predicate Lists(broken: seq<BrokenRow>, i: nat) {
    exists b :: b in broken && b.id == i
  }

  /** On the chain alone: the number of rows, which of them are reported, in which order and with which reasons. */
  ghost predicate ReportFits(a: Audit, table: string, limit: int, r: Report) {
    && r.total == AtMost(|AskedRows(a.chain, table, |a.chain|)|, limit)
    && r.verified + |r.broken| == r.total
    && (forall i: nat :: Lists(r.broken, i) <==>
          i < |a.chain| && Asked(a.chain, table, i) && Within(a.chain, table, limit, i) && Broken(a, i))
    && (forall b :: b in r.broken ==> b.id < |a.chain| && b.reasons == ReasonsAt(a, b.id))
    && (forall k, l :: 0 <= k < l < |r.broken| ==> r.broken[k].id < r.broken[l].id)
  }

  lemma ExaminedFits(a: Audit, table: string, limit: int, r: Report)
    requires r.broken == BrokenAmong(a, Examined(a, table, limit)) && r.total == |Examined(a, table, limit)|
    requires r.verified + |r.broken| == r.total
    ensures ReportFits(a, table, limit, r)
  {
    var ids := Examined(a, table, limit);
    ExaminedAre(a, table, limit);
    BrokenAmongLists(a, ids);
    BrokenInOrder(a, ids);
    forall i: nat
      ensures Lists(r.broken, i) <==>
              i < |a.chain| && Asked(a.chain, table, i) && Within(a.chain, table, limit, i) && Broken(a, i)
    {
      if i in ids && Broken(a, i) {
        assert BrokenRow(i, ReasonsAt(a, i)) in r.broken;
      }
    }
  }

  /** Each reason is given for what it names, once, and in this order. */
  lemma ReasonsMean(a: Audit, row: Row, expectedPrev: Signature)
    ensures var rs := Reasons(a, row, expectedPrev);
            && (ChainBroken in rs <==> row.prev != expectedPrev)
            && (SignatureMismatch in rs <==> !SignatureOk(a, row))
            && (FirstPrevNotEmpty in rs <==> expectedPrev == Empty && row.prev != Empty)
            && (forall i, j :: 0 <= i < j < |rs| ==> rs[i] != rs[j])
            && (ChainBroken in rs ==> rs[0] == ChainBroken)
            && (FirstPrevNotEmpty in rs ==> rs[|rs| - 1] == FirstPrevNotEmpty)
  {
  }

  /******* What signing and rotating keep *******/

  lemma {:induction false} LastSignatureOfPrefix(chain: seq<Row>, more: seq<Row>, n: nat, table: string)
    requires n <= |chain|
    ensures LastSignature(chain + more, n, table) == LastSignature(chain, n, table)
  {
    if n > 0 {
      LastSignatureOfPrefix(chain, more, n - 1, table);
    }
  }

  /** Rows are judged by what stands before them: a longer chain has the same verdicts. */
  lemma LongerChainSameReasons(a: Audit, more: seq<Row>, i: nat)
    requires i < |a.chain|
    ensures ReasonsAt(a.(chain := a.chain + more), i) == ReasonsAt(a, i)
  {
    LastSignatureOfPrefix(a.chain, more, i, a.chain[i].table);
  }

  /** A new row passes exactly when the verifier will look up the key it was signed with. */
  lemma SigningKeepsVerified(a: Audit, table: string, recordId: string, operation: string, payloadHash: Hash,
                             keyId: string, key: Option<Secret>)
    requires NothingBroken(a)
    ensures NothingBroken(a.(chain := a.chain + [NewRow(a, table, recordId, operation, payloadHash, keyId, key)])) <==>
            LookupSigningKey(a, keyId) == key && (keyId == "local" || key.Some?)
  {
    var row := NewRow(a, table, recordId, operation, payloadHash, keyId, key);
    var a' := a.(chain := a.chain + [row]);
    forall i: nat | i < |a.chain| ensures !Broken(a', i) {
      assert !Broken(a, i);
      LongerChainSameReasons(a, [row], i);
    }
    LastSignatureOfPrefix(a.chain, [row], |a.chain|, table);
    BrokenMeans(a', |a.chain|);
  }

  /**
   A rotation keeps a verified chain verified exactly when no row was signed under the new id
   with another secret: reusing an id for a new secret invalidates the rows of its old one.
   */
  lemma RotationKeepsVerified(a: Audit, keyId: string, secret: Secret)
    requires NothingBroken(a)
    ensures NothingBroken(Rotated(a, keyId, secret)) <==>
            forall i :: 0 <= i < |a.chain| && a.chain[i].keyId == keyId && keyId != "local" ==>
              LookupSigningKey(a, keyId) == Some(secret)
  {
    var a' := Rotated(a, keyId, secret);
    forall i: nat | i < |a.chain|
      ensures Broken(a', i) <==> a.chain[i].keyId == keyId != "local" && LookupSigningKey(a, keyId) != Some(secret)
    {
      BrokenMeans(a, i);
      BrokenMeans(a', i);
      assert !Broken(a, i);
    }
  }

  /******* Whole runs *******/

  datatype Op =
    | Sign(table: string, recordId: string, operation: string, payloadHash: Hash)
    | Rotate(keyId: string, secret: Secret)

  /** One call on the audit tables; a rotation always brings a new key id. */
  ghost predicate Next(a: Audit, op: Op, a': Audit) {
    match op
    case Sign(table, recordId, operation, payloadHash) =>
      exists keyId, key :: MaySignWith(a, keyId, key) &&
        a' == a.(chain := a.chain + [NewRow(a, table, recordId, operation, payloadHash, keyId, key)])
    case Rotate(keyId, secret) =>
      Strip(keyId) !in a.keys && Strip(keyId) !in {"", "local", "hmac"} && secret != "" &&
      a' == Rotated(a, Strip(keyId), secret)
  }

  ghost predicate Run(states: seq<Audit>, ops: seq<Op>) {
    && |states| == |ops| + 1
    && states[0].chain == [] && states[0].keys == map[]
    && forall k :: 0 <= k < |ops| ==> Next(states[k], ops[k], states[k + 1])
  }

  ghost predicate RunInv(a: Audit) {
    && NothingBroken(a) && OneActiveAtMost(a.keys)
    && "local" !in a.keys && "hmac" !in a.keys
    && (a.keys != map[] ==> SomeActive(a.keys))
    && (forall i :: 0 <= i < |a.chain| ==> a.chain[i].keyId in a.keys || a.chain[i].keyId in {"local", "hmac"})
  }

  lemma NextKeepsInv(a: Audit, op: Op, a': Audit)
    requires RunInv(a) && Next(a, op, a')
    ensures RunInv(a')
  {
    match op
    case Sign(table, recordId, operation, payloadHash) =>
      var keyId, key :| MaySignWith(a, keyId, key) &&
        a' == a.(chain := a.chain + [NewRow(a, table, recordId, operation, payloadHash, keyId, key)]);
      SigningKeepsVerified(a, table, recordId, operation, payloadHash, keyId, key);
    case Rotate(keyId, secret) =>
      RotationKeepsVerified(a, Strip(keyId), secret);
      assert a'.keys[Strip(keyId)].active;
  }

  /** After any run there is at most one active key and every report is clean, for every table and every limit. */
  lemma {:induction false} RunsVerify(states: seq<Audit>, ops: seq<Op>)
    requires Run(states, ops)
    ensures RunInv(states[|ops|])
    ensures forall table, limit ::
              BrokenAmong(states[|ops|], Examined(states[|ops|], table, limit)) == []
    decreases |ops|
  {
    if |ops| > 0 {
      var n := |ops| - 1;
      assert Run(states[..n + 1], ops[..n]);
      RunsVerify(states[..n + 1], ops[..n]);
      assert Next(states[n], ops[n], states[n + 1]);
      NextKeepsInv(states[n], ops[n], states[n + 1]);
    }
    forall table, limit ensures BrokenAmong(states[|ops|], Examined(states[|ops|], table, limit)) == [] {
      CleanReports(states[|ops|], table, limit);
    }
  }

  /******* What the verifier notices *******/

  /** What a row contributes to its chain. */
  datatype Link = Link(prev: Signature, payload: Hash, signature: Signature)

  function Links(rows: seq<Row>, table: string): seq<Link> {
    if rows == [] then []
    else
      var last := rows[|rows| - 1];
      Links(rows[..|rows| - 1], table) +
      if last.table == table then [Link(last.prev, last.payloadHash, last.signature)] else []
  }

  /** The rows of one table among the first n all pass. */
  ghost predicate TableOk(a: Audit, n: nat, table: string) {
    n <= |a.chain| && forall i :: 0 <= i < n && a.chain[i].table == table ==> !Broken(a, i)
  }

  /**
   Two chains of a table that both pass and end in the same signature are the same chain,
   link by link, even if they lie in different databases with different keys.
   */
  lemma {:induction false} SameEndSameChain(a: Audit, n: nat, b: Audit, m: nat, table: string)
    requires TableOk(a, n, table) && TableOk(b, m, table)
    requires LastSignature(a.chain, n, table) == LastSignature(b.chain, m, table)
    ensures Links(a.chain[..n], table) == Links(b.chain[..m], table)
    decreases n + m
  {
    if n > 0 {
      assert a.chain[..n][..n - 1] == a.chain[..n - 1];
    }
    if m > 0 {
      assert b.chain[..m][..m - 1] == b.chain[..m - 1];
    }
    if n > 0 && a.chain[n - 1].table != table {
      SameEndSameChain(a, n - 1, b, m, table);
    } else if m > 0 && b.chain[m - 1].table != table {
      SameEndSameChain(a, n, b, m - 1, table);
    } else {
      if n > 0 {
        BrokenMeans(a, n - 1);
      }
      if m > 0 {
        BrokenMeans(b, m - 1);
      }
      if n > 0 && m > 0 {
        SameEndSameChain(a, n - 1, b, m - 1, table);
      }
    }
  }

  lemma {:induction false} LinksConcat(x: seq<Row>, y: seq<Row>, table: string)
    ensures Links(x + y, table) == Links(x, table) + Links(y, table)
  {
    if y == [] {
      assert x + y == x;
    } else {
      assert (x + y)[..|x + y| - 1] == x + y[..|y| - 1];
      LinksConcat(x, y[..|y| - 1], table);
    }
  }

  lemma {:induction false} LastSignatureOfTail(x: seq<Row>, y: seq<Row>, table: string)
    ensures LastSignature(x + y, |x + y|, table) ==
            if Links(y, table) == [] then LastSignature(x, |x|, table)
            else Links(y, table)[|Links(y, table)| - 1].signature
  {
    if y == [] {
      assert x + y == x;
    } else {
      var z := x + y[..|y| - 1];
      assert x + y == z + [y[|y| - 1]];
      LastSignatureOfTail(x, y[..|y| - 1], table);
      LastSignatureOfPrefix(z, [y[|y| - 1]], |z|, table);
    }
  }

  lemma ThreeParts(front: seq<Row>, mid: seq<Row>, back: seq<Row>, table: string)
    requires Links(back, table) != []
    ensures var chain, l := front + mid + back, Links(back, table);
            && Links(chain, table) == Links(front, table) + Links(mid, table) + l
            && LastSignature(chain, |chain|, table) == l[|l| - 1].signature
  {
    LastSignatureOfTail(front + mid, back, table);
    LinksConcat(front + mid, back, table);
    LinksConcat(front, mid, table);
  }

  lemma Cancel(f: seq<Link>, x: seq<Link>, y: seq<Link>, b: seq<Link>)
    requires f + x + b == f + y + b
    ensures x == y
  {
    var s := f + x + b;
    assert |x| == |y|;
    assert s[|f|..|f| + |x|] == x;
    assert (f + y + b)[|f|..|f| + |y|] == y;
  }

  /**
   Replacing any stretch of rows before the last row of a table, by altered, fewer, more or reordered
   rows of that table, leaves at least one broken row of the table.
   */
  lemma EditsBeforeTheLastRowAreSeen(a: Audit, front: seq<Row>, was: seq<Row>, now: seq<Row>, back: seq<Row>, table: string)
    requires a.chain == front + was + back && TableOk(a, |a.chain|, table)
    requires Links(back, table) != [] && Links(was, table) != Links(now, table)
    ensures var b := a.(chain := front + now + back); !TableOk(b, |b.chain|, table)
  {
    var b := a.(chain := front + now + back);
    if TableOk(b, |b.chain|, table) {
      ThreeParts(front, was, back, table);
      ThreeParts(front, now, back, table);
      SameEndSameChain(a, |a.chain|, b, |b.chain|, table);
      assert a.chain[..|a.chain|] == a.chain && b.chain[..|b.chain|] == b.chain;
      Cancel(Links(front, table), Links(was, table), Links(now, table), Links(back, table));
      assert false;
    }
  }

  /** In a chain that passes, each signature of a table is deeper than all before it. */
  lemma DeeperAndDeeper(a: Audit, n: nat, m: nat, table: string)
    requires TableOk(a, |a.chain|, table) && m <= n < |a.chain|
    requires a.chain[n].table == table
    ensures Depth(LastSignature(a.chain, m, table)) < Depth(a.chain[n].signature)
  {
    BrokenMeans(a, n);
    LastIsDeepest(a, m, n, table);
  }

  /** Swapping two rows of a table before its last row is such an edit, even if their payloads are equal. */
  lemma SwapIsSeen(a: Audit, front: seq<Row>, r: Row, mid: seq<Row>, q: Row, back: seq<Row>, table: string)
    requires a.chain == front + ([r] + mid + [q]) + back && TableOk(a, |a.chain|, table)
    requires r.table == table && q.table == table && Links(back, table) != []
    ensures var b := a.(chain := front + ([q] + mid + [r]) + back); !TableOk(b, |b.chain|, table)
  {
    var was, now := [r] + mid + [q], [q] + mid + [r];
    var n := |front| + 1 + |mid|;
    assert a.chain[|front|] == r && a.chain[n] == q;
    DeeperAndDeeper(a, n, |front| + 1, table);
    assert was == [r] + (mid + [q]) && now == [q] + (mid + [r]);
    LinksConcat([r], mid + [q], table);
    LinksConcat([q], mid + [r], table);
    assert Links(was, table)[0].signature == r.signature && Links(now, table)[0].signature == q.signature;
    EditsBeforeTheLastRowAreSeen(a, front, was, now, back, table);
  }

  function Depth(s: Signature): nat {
    match s
    case Empty => 0
    case Signed(_, prev, _) => 1 + Depth(prev)
  }

  lemma {:induction false} LastIsDeepest(a: Audit, m: nat, n: nat, table: string)
    requires TableOk(a, |a.chain|, table) && m <= n <= |a.chain|
    ensures Depth(LastSignature(a.chain, m, table)) <= Depth(LastSignature(a.chain, n, table))
  {
    if m < n {
      LastIsDeepest(a, m, n - 1, table);
      if a.chain[n - 1].table == table {
        BrokenMeans(a, n - 1);
      }
    }
  }

  /** And the verifier reports it. */
  lemma BrokenTableIsReported(a: Audit, table: string)
    requires !TableOk(a, |a.chain|, table)
    ensures BrokenAmong(a, Examined(a, table, -1)) != []
  {
    var i :| 0 <= i < |a.chain| && a.chain[i].table == table && Broken(a, i);
    MatchingLists(a.chain, table, |a.chain|);
    BrokenAmongLists(a, Examined(a, table, -1));
    assert BrokenRow(i, ReasonsAt(a, i)) in BrokenAmong(a, Examined(a, table, -1));
  }

  /******* What it does not notice *******/

  /** The signature covers the payload only: other columns of a row can change unseen. */
  lemma DescriptionsAreNotSigned(a: Audit, i: nat, recordId: string, operation: string, k: nat)
    requires i < |a.chain| && k < |a.chain|
    ensures var b := a.(chain := a.chain[i := a.chain[i].(recordId := recordId, operation := operation)]);
            ReasonsAt(b, k) == ReasonsAt(a, k)
  {
    SameChainSameLast(a.chain, a.chain[i := a.chain[i].(recordId := recordId, operation := operation)],
                      k, a.chain[k].table);
  }

  lemma {:induction false} SameChainSameLast(x: seq<Row>, y: seq<Row>, n: nat, table: string)
    requires |x| == |y| && n <= |x|
    requires forall i :: 0 <= i < |x| ==> x[i].table == y[i].table && x[i].signature == y[i].signature
    ensures LastSignature(x, n, table) == LastSignature(y, n, table)
  {
    if n > 0 {
      SameChainSameLast(x, y, n - 1, table);
    }
  }

  /** Rows cut off at the end leave no trace. */
  lemma TruncationIsUnseen(a: Audit, n: nat)
    requires n <= |a.chain| && NothingBroken(a)
    ensures NothingBroken(a.(chain := a.chain[..n]))
  {
    var b := a.(chain := a.chain[..n]);
    assert a.chain == b.chain + a.chain[n..];
    forall i: nat | i < n ensures !Broken(b, i) {
      LongerChainSameReasons(b, a.chain[n..], i);
      assert !Broken(a, i);
    }
  }

  /******* The object *******/

  datatype Rotation = Rotation(keyId: string, previousKeyId: string)

  class AuditDb {
    var chain: seq<Row>
    var keys: map<string, Key>
    const envKey: Option<Secret>

    function View(): Audit
      reads this
    {
      Audit(chain, keys, envKey)
    }

    constructor (envKey: Option<Secret>)
      ensures View() == Audit([], map[], envKey)
    {
      chain, keys, this.envKey := [], map[], envKey;
    }

    method GetActiveSigningKey() returns (keyId: string, key: Option<Secret>)
      ensures MaySignWith(View(), keyId, key)
    {
      if k :| k in keys && keys[k].active {
        return k, Some(keys[k].secret);
      }
      if envKey.Some? {
        return "hmac", envKey;
      }
      return "local", None;
    }

    method RotateSigningKey(newKeyId: string, newKeySecret: Secret) returns (r: Result<Rotation, string>)
      modifies this`keys
      ensures r.Failure? <==> Strip(newKeyId) == "" || newKeySecret == ""
      ensures r.Failure? ==> View() == old(View())
      ensures r.Success? ==> View() == Rotated(old(View()), Strip(newKeyId), newKeySecret)
      ensures r.Success? ==> r.value.keyId == Strip(newKeyId)
      ensures r.Success? ==> if SomeActive(old(keys)) then
                          r.value.previousKeyId in old(keys) && old(keys)[r.value.previousKeyId].active
                        else r.value.previousKeyId == ""
    {
      var keyId := Strip(newKeyId);
      if keyId == "" {
        return Failure("new_key_id is required");
      }
      if newKeySecret == "" {
        return Failure("new_key_secret is required");
      }
      var previous := "";
      if k :| k in keys && keys[k].active {
        previous := k;
        keys := map l | l in keys :: keys[l].(active := false);
      } else {
        assert keys == map l | l in keys :: keys[l].(active := false);
      }
      keys := keys[keyId := Key(newKeySecret, true)];
      return Success(Rotation(keyId, previous));
    }

    method SignAuditRecord(table: string, recordId: string, payloadHash: Hash, operation: string := "insert")
      returns (row: Row)
      modifies this`chain
      ensures chain == old(chain) + [row]
      ensures row.table == table && row.recordId == recordId && row.operation == operation
      ensures row.payloadHash == payloadHash && row.prev == LastSignature(old(chain), |old(chain)|, table)
      ensures exists keyId, key ::
                MaySignWith(old(View()), keyId, key) &&
                row == NewRow(old(View()), table, recordId, operation, payloadHash, keyId, key)
    {
      var prev := LastSignature(chain, |chain|, table);
      var keyId, key := GetActiveSigningKey();
      row := NewRow(View(), table, recordId, operation, payloadHash, keyId, key);
      chain := chain + [row];
    }

    method CheckRow(row: Row, expectedPrev: Signature) returns (reasons: seq<Reason>)
      ensures reasons == Reasons(View(), row, expectedPrev)
    {
      reasons := [];
      if row.prev != expectedPrev {
        reasons := reasons + [ChainBroken];
      }
      var key := LookupSigningKey(View(), row.keyId);
      if row.keyId == "local" {
        if Signed(None, row.prev, row.payloadHash) != row.signature {
          reasons := reasons + [SignatureMismatch];
        }
      } else if key.Some? {
        if Signed(key, row.prev, row.payloadHash) != row.signature {
          reasons := reasons + [SignatureMismatch];
        }
      } else {
        reasons := reasons + [SignatureMismatch];
      }
      if expectedPrev == Empty && row.prev != Empty {
        reasons := reasons + [FirstPrevNotEmpty];
      }
    }

    /** `verify_audit_chain`: one pass over the rows asked for, remembering the last signature of each table. */
    method VerifyAuditChain(table: string := "", limit: int := 1000) returns (report: Report)
      ensures report.broken == BrokenAmong(View(), Examined(View(), table, limit))
      ensures ReportFits(View(), table, limit, report)
    {
      var ids := Limited(Matching(chain, table, |chain|), limit);
      var broken: seq<BrokenRow> := [];
      var verified := 0;
      var prevMap: map<string, Signature> := map[];
      ghost var a, all := View(), Matching(chain, table, |chain|);
      for k := 0 to |ids|
        invariant Remembers(a, table, After(all, k), prevMap)
        invariant broken == BrokenAmong(a, ids[..k])
        invariant verified + |broken| == k
      {
        VerifyStep(a, table, k, prevMap);
        var row := chain[ids[k]];
        var reasons := CheckRow(row, Recall(prevMap, row.table));
        assert ids[..k + 1][..k] == ids[..k];
        if reasons != [] {
          broken := broken + [BrokenRow(ids[k], reasons)];
        } else {
          verified := verified + 1;
        }
        prevMap := prevMap[row.table := row.signature];
      }
      assert ids[..|ids|] == ids;
      report := Report(|ids|, verified, broken);
      ExaminedFits(a, table, limit, report);
    }
  }
}
