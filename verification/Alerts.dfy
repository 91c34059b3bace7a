/** Which alerts are the same alert: the bytes an alert's fingerprint is computed from, and the table keyed
    by them that lets each alert fire once. */
module Alerts {
  import opened Chain

  type Byte = b: nat | b < 256

  type Text = seq<Byte>

  const INT64_LIMIT: int := 0x8000_0000_0000_0000
  const UINT64_LIMIT: nat := 0x1_0000_0000_0000_0000

  type Int64 = i: int | -INT64_LIMIT <= i < INT64_LIMIT

  type Uint64 = n: nat | n < UINT64_LIMIT

  /** A rule that matched a log; payload stands for everything the fingerprint does not read. */
  datatype Match = Match(chain: Text, monitor: Text, ruleIdx: Int64, blockHash: Hash, txHash: Hash, logIndex: Uint64,
                         payload: nat)

  predicate SameIdentity(a: Match, b: Match) {
    && a.chain == b.chain && a.monitor == b.monitor
    && SameEvent(a, b)
  }

  predicate SameEvent(a: Match, b: Match) {
    && a.ruleIdx == b.ruleIdx && a.blockHash == b.blockHash && a.txHash == b.txHash && a.logIndex == b.logIndex
  }

  // ---- Fixed-width big-endian numbers -------------------------------------------------

  function BigEndian(n: nat, width: nat): (s: seq<Byte>)
    ensures |s| == width
  {
    if width == 0 then [] else BigEndian(n / 256, width - 1) + [n % 256]
  }

  function Value(s: seq<Byte>): nat {
    if s == [] then 0 else Value(s[..|s| - 1]) * 256 + s[|s| - 1]
  }

  function Power(width: nat): (p: nat)
    ensures p > 0
  {
    if width == 0 then 1 else 256 * Power(width - 1)
  }

  lemma {:induction false} ReadsBack(n: nat, width: nat)
    requires n < Power(width)
    ensures Value(BigEndian(n, width)) == n
  {
    if width > 0 {
      ReadsBack(n / 256, width - 1);
      assert BigEndian(n, width)[..width - 1] == BigEndian(n / 256, width - 1);
    }
  }

  lemma {:induction false} PowerAdds(a: nat, b: nat)
    ensures Power(a + b) == Power(a) * Power(b)
  {
    if a > 0 {
      PowerAdds(a - 1, b);
    }
  }

  lemma Widths()
    ensures Power(8) == UINT64_LIMIT && Power(32) == HASH_LIMIT
  {
    assert Power(2) == 0x1_0000;
    PowerAdds(2, 2);
    PowerAdds(4, 4);
    PowerAdds(8, 8);
    PowerAdds(16, 16);
  }

  lemma SameWord(m: nat, n: nat, width: nat)
    requires m < Power(width) && n < Power(width)
    ensures BigEndian(m, width) == BigEndian(n, width) <==> m == n
  {
    ReadsBack(m, width);
    ReadsBack(n, width);
  }

  // ---- The fingerprinted bytes --------------------------------------------------------

  /** A signed index as the unsigned 64-bit word with the same bits. */
  function Word(i: Int64): Uint64 {
    if i < 0 then i + UINT64_LIMIT else i
  }

  function Tail(m: Match): seq<Byte> {
    BigEndian(Word(m.ruleIdx), 8) + BigEndian(m.blockHash, 32) + BigEndian(m.txHash, 32) + BigEndian(m.logIndex, 8)
  }

  function Names(m: Match): Text {
    m.chain + [0] + m.monitor
  }

  function Encode(m: Match): seq<Byte> {
    Names(m) + [0] + Tail(m)
  }

  predicate NulFree(s: Text) {
    0 !in s
  }

  lemma TailIdentifies(a: Match, b: Match)
    ensures Tail(a) == Tail(b) <==> SameEvent(a, b)
  {
    Widths();
    SameWord(Word(a.ruleIdx), Word(b.ruleIdx), 8);
    SameWord(a.blockHash, b.blockHash, 32);
    SameWord(a.txHash, b.txHash, 32);
    SameWord(a.logIndex, b.logIndex, 8);
    hide BigEndian, Power;
    FieldsOf(a);
    FieldsOf(b);
  }

  lemma FieldsOf(m: Match)
    ensures Tail(m)[..8] == BigEndian(Word(m.ruleIdx), 8) && Tail(m)[8..40] == BigEndian(m.blockHash, 32)
    ensures Tail(m)[40..72] == BigEndian(m.txHash, 32) && Tail(m)[72..] == BigEndian(m.logIndex, 8)
  {
  }

  /** Two matches share their bytes exactly when they report the same rule, block, transaction and log, and
      their names agree once joined by the separator. */
  lemma SameBytesIff(a: Match, b: Match)
    ensures Encode(a) == Encode(b) <==> Names(a) == Names(b) && SameEvent(a, b)
  {
    TailIdentifies(a, b);
    hide Tail, Names, SameEvent;
    SplitEnd(a);
    SplitEnd(b);
  }

  lemma SplitEnd(m: Match)
    ensures |Tail(m)| == 80 && |Encode(m)| == |Names(m)| + 81
    ensures Encode(m)[..|Names(m)|] == Names(m) && Encode(m)[|Names(m)| + 1..] == Tail(m)
  {
  }

  lemma SplitNames(a: Match, b: Match)
    requires Names(a) == Names(b) && |a.chain| <= |b.chain|
    ensures |a.chain| < |b.chain| ==> 0 in b.chain && 0 in a.monitor
    ensures |a.chain| == |b.chain| ==> a.chain == b.chain && a.monitor == b.monitor
  {
    var i, j := |a.chain|, |b.chain|;
    assert Names(a)[i] == 0 && Names(b)[j] == 0;
    if i < j {
      assert b.chain[i] == 0;
      assert a.monitor[j - i - 1] == 0;
    } else {
      assert a.chain == Names(a)[..i] && a.monitor == Names(a)[i + 1..];
      assert b.chain == Names(b)[..i] && b.monitor == Names(b)[i + 1..];
    }
  }

  /** Injectivity: when the chains hold no NUL byte - whatever the monitors hold - equal bytes mean the same
      alert. */
  lemma EncodeInjective(a: Match, b: Match)
    requires NulFree(a.chain) && NulFree(b.chain)
    ensures Encode(a) == Encode(b) <==> SameIdentity(a, b)
  {
    SameBytesIff(a, b);
    if Names(a) == Names(b) {
      if |a.chain| <= |b.chain| { SplitNames(a, b); } else { SplitNames(b, a); }
    }
  }

  ghost predicate UniquelyEncoded(a: Match) {
    forall b: Match :: Encode(a) == Encode(b) ==> SameIdentity(a, b)
  }

  /** Exactly: an alert's bytes are its own among all alerts if and only if neither of its names holds a NUL
      byte; otherwise the boundary between the names can be moved. */
  lemma UniqueIffNulFree(a: Match)
    ensures UniquelyEncoded(a) <==> NulFree(a.chain) && NulFree(a.monitor)
  {
    if NulFree(a.chain) && NulFree(a.monitor) {
      forall b: Match | Encode(a) == Encode(b)
        ensures SameIdentity(a, b)
      {
        SameBytesIff(a, b);
        if |a.chain| <= |b.chain| { SplitNames(a, b); } else { SplitNames(b, a); }
      }
    } else {
      var b := MovedBoundary(a);
      assert Encode(a) == Encode(b) && !SameIdentity(a, b);
    }
  }

  lemma MovedBoundary(a: Match) returns (b: Match)
    requires !NulFree(a.chain) || !NulFree(a.monitor)
    ensures Encode(a) == Encode(b) && !SameIdentity(a, b)
  {
    if !NulFree(a.chain) {
      var i :| 0 <= i < |a.chain| && a.chain[i] == 0;
      b := a.(chain := a.chain[..i], monitor := a.chain[i + 1..] + [0] + a.monitor);
      assert a.chain == a.chain[..i] + [0] + a.chain[i + 1..];
    } else {
      var i :| 0 <= i < |a.monitor| && a.monitor[i] == 0;
      b := a.(chain := a.chain + [0] + a.monitor[..i], monitor := a.monitor[i + 1..]);
      assert a.monitor == a.monitor[..i] + [0] + a.monitor[i + 1..];
    }
    assert Names(a) == Names(b);
    SameBytesIff(a, b);
  }

  /** The most significant byte comes first. */
  lemma {:induction false} ValueFront(b: Byte, s: seq<Byte>)
    ensures Value([b] + s) == b * Power(|s|) + Value(s)
    decreases |s|
  {
    if s == [] {
      assert ([b] + s)[..0] == [] && [b] + s == [b];
    } else {
      var q, last := s[..|s| - 1], s[|s| - 1];
      ValueFront(b, q);
      assert ([b] + s)[..|s|] == [b] + q;
      Carry(b, Power(|q|), Value(q), last);
    }
  }

  lemma Carry(b: nat, p: nat, v: nat, last: nat)
    ensures (b * p + v) * 256 + last == b * (256 * p) + (v * 256 + last)
  {
  }

  /** Where each field stands, and what it reads back as: the chain, a NUL, the monitor, a NUL, the rule index as
      the unsigned word of its two's complement, the block hash, the transaction hash and the log index. */
  lemma Layout(m: Match)
    ensures var s, c := Encode(m), |m.chain|;
            var o := c + |m.monitor| + 2;
            && |s| == o + 80
            && s[..c] == m.chain && s[c] == 0 && s[c + 1..o - 1] == m.monitor && s[o - 1] == 0
            && Value(s[o..o + 8]) == (if m.ruleIdx >= 0 then m.ruleIdx else m.ruleIdx + 0x1_0000_0000_0000_0000)
            && Value(s[o + 8..o + 40]) == m.blockHash && Value(s[o + 40..o + 72]) == m.txHash
            && Value(s[o + 72..]) == m.logIndex
  {
    Widths();
    ReadsBack(Word(m.ruleIdx), 8);
    ReadsBack(m.blockHash, 32);
    ReadsBack(m.txHash, 32);
    ReadsBack(m.logIndex, 8);
    hide BigEndian, Value, Power;
    FieldsOf(m);
    FieldsPlaced(m);
  }

  lemma FieldsPlaced(m: Match)
    ensures var s, c := Encode(m), |m.chain|;
            var o := c + |m.monitor| + 2;
            && |s| == o + 80 && |Tail(m)| == 80
            && s[..c] == m.chain && s[c] == 0 && s[c + 1..o - 1] == m.monitor && s[o - 1] == 0
            && s[o..o + 8] == Tail(m)[..8] && s[o + 8..o + 40] == Tail(m)[8..40]
            && s[o + 40..o + 72] == Tail(m)[40..72] && s[o + 72..] == Tail(m)[72..]
  {
    hide Tail;
    SplitEnd(m);
    var s, n := Encode(m), |Names(m)|;
    assert s == Names(m) + [0] + Tail(m);
    assert s[n] == 0;
  }

  // ---- Computing them -----------------------------------------------------------------

  /** The hash state, as the bytes written to it so far. */
  class HashState {
    var written: seq<Byte>

    constructor ()
      ensures written == []
    {
      written := [];
    }

    method Write(p: seq<Byte>)
      modifies this
      ensures written == old(written) + p
    {
      written := written + p;
    }
  }

  method PutUint64(buf: array<Byte>, v: Uint64)
    requires buf.Length == 8
    modifies buf
    ensures buf[..] == BigEndian(v, 8)
  {
    var rest, i := v, 8;
    while i > 0
      invariant 0 <= i <= 8
      invariant BigEndian(v, 8) == BigEndian(rest, i) + buf[i..]
    {
      i := i - 1;
      buf[i] := rest % 256;
      rest := rest / 256;
    }
  }

  /** The bytes hashed for a match: the same eight-byte buffer serves both numbers. */
  method Fingerprint(m: Match) returns (hashed: seq<Byte>)
    ensures hashed == Encode(m)
  {
    var h := new HashState();
    h.Write(m.chain);
    h.Write([0]);
    h.Write(m.monitor);
    h.Write([0]);
    var buf := new Byte[8];
    PutUint64(buf, if m.ruleIdx < 0 then m.ruleIdx + UINT64_LIMIT else m.ruleIdx);
    h.Write(buf[..]);
    h.Write(BigEndian(m.blockHash, 32));
    h.Write(BigEndian(m.txHash, 32));
    PutUint64(buf, m.logIndex);
    h.Write(buf[..]);
    hashed := h.written;
    EncodeParts(m);
  }

  lemma EncodeParts(m: Match)
    ensures Encode(m) ==
        [] + m.chain + [0] + m.monitor + [0] + BigEndian(Word(m.ruleIdx), 8) + BigEndian(m.blockHash, 32)
                         + BigEndian(m.txHash, 32) + BigEndian(m.logIndex, 8)
  {
  }

  // ---- Firing once --------------------------------------------------------------------

  datatype Alert = Alert(found: Match, fingerprint: seq<Byte>, at: nat)

  type AlertTable = map<seq<Byte>, Alert>

  /** What becomes of an insert: done, not done, or done although an error is reported. */
  datatype RecordReply = Stored | Refused | StoredWithError

  datatype Handled = Fired(alert: Alert) | Duplicate | StoreError

  /** One call of the manager: the match, the clock, and how the store behaves. */
  datatype Call = Call(found: Match, at: nat, lookupFails: bool, record: RecordReply)

  function Inserted(alerts: AlertTable, a: Alert): AlertTable {
    if a.fingerprint in alerts then alerts else alerts[a.fingerprint := a]
  }

  function HandleOnce(alerts: AlertTable, c: Call): (AlertTable, Handled) {
    var key := Encode(c.found);
    if c.lookupFails then (alerts, StoreError)
    else if key in alerts then (alerts, Duplicate)
    else
      var alert := Alert(c.found, key, c.at);
      match c.record
      case Stored => (Inserted(alerts, alert), Fired(alert))
      case Refused => (alerts, StoreError)
      case StoredWithError => (Inserted(alerts, alert), StoreError)
  }

  function After(alerts: AlertTable, calls: seq<Call>): AlertTable {
    if calls == [] then alerts else HandleOnce(After(alerts, calls[..|calls| - 1]), calls[|calls| - 1]).0
  }

  /** What the i-th call of a run returns. */
  function ResultAt(alerts: AlertTable, calls: seq<Call>, i: nat): Handled
    requires i < |calls|
  {
    HandleOnce(After(alerts, calls[..i]), calls[i]).1
  }

  predicate Writes(c: Call) {
    !c.lookupFails && !c.record.Refused?
  }

  predicate WritesKey(c: Call, key: seq<Byte>) {
    Writes(c) && Encode(c.found) == key
  }

  /** A key is in the table exactly when it was there or some call wrote it. */
  lemma {:induction false} KeysAfter(alerts: AlertTable, calls: seq<Call>, key: seq<Byte>)
    ensures key in After(alerts, calls) <==> key in alerts || exists j :: 0 <= j < |calls| && WritesKey(calls[j], key)
    decreases |calls|
  {
    hide Encode;
    if calls != [] {
      var q, c := calls[..|calls| - 1], calls[|calls| - 1];
      KeysAfter(alerts, q, key);
      if WritesKey(c, key) {
        assert WritesKey(calls[|calls| - 1], key);
      }
      if j :| 0 <= j < |q| && WritesKey(q[j], key) {
        assert WritesKey(calls[j], key);
      }
    }
  }

  /** A call fires exactly when the store answers and records it, and no earlier call wrote its key. */
  lemma FiresIff(alerts: AlertTable, calls: seq<Call>, i: nat)
    requires i < |calls|
    ensures ResultAt(alerts, calls, i).Fired? <==>
            && !calls[i].lookupFails && calls[i].record.Stored?
            && Encode(calls[i].found) !in alerts
            && forall j :: 0 <= j < i ==> !WritesKey(calls[j], Encode(calls[i].found))
  {
    hide Encode;
    KeysAfter(alerts, calls[..i], Encode(calls[i].found));
    assert forall j :: 0 <= j < i ==> calls[..i][j] == calls[j];
  }

  /** A call answers that the alert is a duplicate - not fired, and no error - exactly when the store answers and
      the alert's key was there or an earlier call wrote it. */
  lemma DuplicateIff(alerts: AlertTable, calls: seq<Call>, i: nat)
    requires i < |calls|
    ensures ResultAt(alerts, calls, i).Duplicate? <==>
            && !calls[i].lookupFails
            && (|| Encode(calls[i].found) in alerts
                || exists j :: 0 <= j < i && WritesKey(calls[j], Encode(calls[i].found)))
  {
    hide Encode;
    KeysAfter(alerts, calls[..i], Encode(calls[i].found));
    assert forall j :: 0 <= j < i ==> calls[..i][j] == calls[j];
  }

  /** A call reports an error exactly when the lookup failed, or the key was new and the insert did not succeed. */
  lemma StoreErrorIff(alerts: AlertTable, calls: seq<Call>, i: nat)
    requires i < |calls|
    ensures ResultAt(alerts, calls, i).StoreError? <==>
            || calls[i].lookupFails
            || (&& !calls[i].record.Stored? && Encode(calls[i].found) !in alerts
                && forall j :: 0 <= j < i ==> !WritesKey(calls[j], Encode(calls[i].found)))
  {
    hide Encode;
    KeysAfter(alerts, calls[..i], Encode(calls[i].found));
    assert forall j :: 0 <= j < i ==> calls[..i][j] == calls[j];
  }

  ghost predicate NulFreeChains(calls: seq<Call>) {
    forall j :: 0 <= j < |calls| ==> NulFree(calls[j].found.chain)
  }

  ghost predicate WrittenBefore(calls: seq<Call>, i: nat)
    requires i < |calls|
  {
    exists j :: 0 <= j < i && Writes(calls[j]) && SameIdentity(calls[j].found, calls[i].found)
  }

  /** Deduplication over every run from an empty store: with NUL-free chain names, a call fires exactly when
      the store answers and records it and no earlier call wrote the same alert. */
  lemma FiresIffNew(calls: seq<Call>, i: nat)
    requires i < |calls| && NulFreeChains(calls)
    ensures ResultAt(map[], calls, i).Fired? <==>
            !calls[i].lookupFails && calls[i].record.Stored? && !WrittenBefore(calls, i)
  {
    hide Encode, SameIdentity, ResultAt;
    FiresIff(map[], calls, i);
    forall j | 0 <= j < i
      ensures WritesKey(calls[j], Encode(calls[i].found)) <==>
              Writes(calls[j]) && SameIdentity(calls[j].found, calls[i].found)
    {
      EncodeInjective(calls[j].found, calls[i].found);
    }
  }

  /** At most once: no alert fires at two calls of a run, whatever the store already held. */
  lemma FiresAtMostOnce(alerts: AlertTable, calls: seq<Call>, i: nat, j: nat)
    requires i < j < |calls| && ResultAt(alerts, calls, i).Fired? && ResultAt(alerts, calls, j).Fired?
    ensures !SameIdentity(calls[i].found, calls[j].found)
  {
    FiresIff(alerts, calls, i);
    FiresIff(alerts, calls, j);
    assert !WritesKey(calls[i], Encode(calls[j].found));
    hide Encode;
    SameIdentitySameBytes(calls[i].found, calls[j].found);
  }

  lemma SameIdentitySameBytes(a: Match, b: Match)
    ensures SameIdentity(a, b) ==> Encode(a) == Encode(b)
  {
  }

  /** What a run has recorded under a key stays as it is: the first record is never overwritten, and it
      is the alert that fired. */
  lemma {:induction false} FirstRecordKept(alerts: AlertTable, calls: seq<Call>, i: nat)
    requires i <= |calls|
    ensures forall key :: key in After(alerts, calls[..i]) ==>
              key in After(alerts, calls) && After(alerts, calls)[key] == After(alerts, calls[..i])[key]
    decreases |calls|
  {
    hide Encode;
    if i < |calls| {
      FirstRecordKept(alerts, calls[..|calls| - 1], i);
      assert calls[..|calls| - 1][..i] == calls[..i];
    } else {
      assert calls[..i] == calls;
    }
  }

  lemma FiredIsRecorded(alerts: AlertTable, calls: seq<Call>, i: nat)
    requires i < |calls| && ResultAt(alerts, calls, i).Fired?
    ensures var alert := ResultAt(alerts, calls, i).alert;
            && alert == Alert(calls[i].found, Encode(calls[i].found), calls[i].at)
            && alert.fingerprint in After(alerts, calls) && After(alerts, calls)[alert.fingerprint] == alert
  {
    hide Encode;
    FirstRecordKept(alerts, calls, i + 1);
    assert calls[..i + 1][..i] == calls[..i];
  }

  // ---- The manager and its store ------------------------------------------------------

  class AlertStore {
    var alerts: AlertTable

    constructor ()
      ensures alerts == map[]
    {
      alerts := map[];
    }

    method IsDuplicate(fingerprint: seq<Byte>, fails: bool) returns (r: Option<bool>)
      ensures r == if fails then None else Some(fingerprint in alerts)
    {
      if fails {
        return None;
      }
      r := Some(fingerprint in alerts);
    }

    method RecordAlert(a: Alert, reply: RecordReply) returns (ok: bool)
      modifies this
      ensures alerts == if reply.Refused? then old(alerts) else Inserted(old(alerts), a)
      ensures ok == reply.Stored?
    {
      if !reply.Refused? && a.fingerprint !in alerts {
        alerts := alerts[a.fingerprint := a];
      }
      ok := reply.Stored?;
    }
  }

  class Manager {
    const store: AlertStore

    constructor (store: AlertStore)
      ensures this.store == store
    {
      this.store := store;
    }

    method Handle(c: Call) returns (r: Handled)
      modifies store
      ensures (store.alerts, r) == HandleOnce(old(store.alerts), c)
    {
      var fp := Fingerprint(c.found);
      var dup := store.IsDuplicate(fp, c.lookupFails);
      if dup.None? {
        return StoreError;
      }
      if dup.value {
        return Duplicate;
      }
      var alert := Alert(c.found, fp, c.at);
      var ok := store.RecordAlert(alert, c.record);
      if !ok {
        return StoreError;
      }
      return Fired(alert);
    }
  }
}
