/** The shadow VMCS: a fixed array of encoding/value fields searched linearly,
    and the map it stands for. */
module ShadowVmcs {

  const MAX_FIELDS: nat := 256

  /** A VMCS field encoding, a 32-bit number. */
  type Encoding = e: nat | e < 0x1_0000_0000

  datatype Field = Field(enc: Encoding, val: bv64)

  /** The abstract store: at most MAX_FIELDS encodings, each with one value. */
  type Store = map<Encoding, bv64>

  /** What a vmread of the encoding returns. */
  function Lookup(m: Store, enc: Encoding): bv64 {
    if enc in m then m[enc] else 0
  }

  predicate Accepts(m: Store, enc: Encoding) {
    enc in m || |m| < MAX_FIELDS
  }

  function Put(m: Store, enc: Encoding, val: bv64): Store {
    if Accepts(m, enc) then m[enc := val] else m
  }

  /** The store after a sequence of writes, some of which a full store may drop. */
  function PutAll(m: Store, log: seq<Field>): Store {
    if log == [] then m
    else Put(PutAll(m, log[..|log| - 1]), log[|log| - 1].enc, log[|log| - 1].val)
  }

  // ----- the array behind the map -----

  ghost predicate Distinct(s: seq<Field>) {
    forall i, j :: 0 <= i < j < |s| ==> s[i].enc != s[j].enc
  }

  ghost function Entries(s: seq<Field>): Store {
    if s == [] then map[] else Entries(s[..|s| - 1])[s[|s| - 1].enc := s[|s| - 1].val]
  }

  lemma {:induction false} EntriesOf(s: seq<Field>)
    requires Distinct(s)
    ensures forall i :: 0 <= i < |s| ==> s[i].enc in Entries(s) && Entries(s)[s[i].enc] == s[i].val
    ensures forall e :: e in Entries(s) ==> exists i :: 0 <= i < |s| && s[i].enc == e
    ensures |Entries(s)| == |s|
  {
    if s != [] {
      var front, last := s[..|s| - 1], s[|s| - 1];
      EntriesOf(front);
      assert last.enc !in Entries(front);
      forall i | 0 <= i < |s|
        ensures s[i].enc in Entries(s) && Entries(s)[s[i].enc] == s[i].val
      {
        assert i < |front| ==> front[i] == s[i] && s[i].enc != last.enc;
      }
      forall e | e in Entries(s)
        ensures exists i :: 0 <= i < |s| && s[i].enc == e
      {
        if e == last.enc {
          assert s[|s| - 1].enc == e;
        } else {
          assert e in Entries(front);
          var i :| 0 <= i < |front| && front[i].enc == e;
          assert s[i].enc == e;
        }
      }
    }
  }

  lemma {:induction false} EntriesUpdate(s: seq<Field>, i: nat, val: bv64)
    requires Distinct(s) && i < |s|
    ensures Entries(s[i := Field(s[i].enc, val)]) == Entries(s)[s[i].enc := val]
  {
    var t, n := s[i := Field(s[i].enc, val)], |s| - 1;
    if i == n {
      assert t[..n] == s[..n];
    } else {
      EntriesUpdate(s[..n], i, val);
      assert t[..n] == s[..n][i := Field(s[i].enc, val)];
      assert s[i].enc != s[n].enc;
    }
  }

  lemma EntryAt(s: seq<Field>, i: nat)
    requires Distinct(s) && i < |s|
    ensures s[i].enc in Entries(s) && Lookup(Entries(s), s[i].enc) == s[i].val
  {
    EntriesOf(s);
  }

  lemma EntryAbsent(s: seq<Field>, enc: Encoding)
    requires Distinct(s) && forall i :: 0 <= i < |s| ==> s[i].enc != enc
    ensures enc !in Entries(s)
  {
    EntriesOf(s);
  }

  lemma {:induction false} EntriesSize(s: seq<Field>)
    requires Distinct(s)
    ensures |Entries(s)| == |s|
  {
    EntriesOf(s);
  }

  lemma EntriesAppend(s: seq<Field>, f: Field)
    requires Distinct(s) && forall i :: 0 <= i < |s| ==> s[i].enc != f.enc
    ensures Distinct(s + [f]) && Entries(s + [f]) == Entries(s)[f.enc := f.val]
    ensures |Entries(s + [f])| == |s| + 1
  {
    assert (s + [f])[..|s|] == s;
    EntriesSize(s + [f]);
  }

  /** An update in place of the field that holds an encoding. */
  lemma EntriesReplace(s: seq<Field>, i: nat, f: Field)
    requires Distinct(s) && i < |s| && s[i].enc == f.enc
    ensures Distinct(s[i := f]) && f.enc in Entries(s)
    ensures Entries(s[i := f]) == Entries(s)[f.enc := f.val] && |Entries(s[i := f])| == |s|
  {
    hide Entries;
    EntryAt(s, i);
    EntriesUpdate(s, i, f.val);
    EntriesSize(s[i := f]);
  }

  class ShadowVMCS {
    const fields: array<Field>
    var count: nat
    var launched: bool

    ghost predicate Valid()
      reads this, fields
    {
      fields.Length == MAX_FIELDS && count <= MAX_FIELDS && Distinct(fields[..count])
    }

    ghost function Contents(): Store
      reads this, fields
      requires Valid()
    {
      Entries(fields[..count])
    }

    constructor ()
      ensures Valid() && fresh(fields)
      ensures Contents() == map[] && !launched
    {
      fields := new Field[MAX_FIELDS](_ => Field(0, 0));
      count := 0;
      launched := false;
    }

    method Reset()
      requires Valid()
      modifies this
      ensures Valid() && Contents() == map[] && !launched
    {
      count := 0;
      launched := false;
    }

    method SetLaunched(v: bool)
      requires Valid()
      modifies this`launched
      ensures Valid() && launched == v && Contents() == old(Contents())
    {
      launched := v;
    }

    method Read(enc: Encoding) returns (val: bv64)
      requires Valid()
      ensures val == Lookup(Contents(), enc)
    {
      for i := 0 to count
        invariant forall k :: 0 <= k < i ==> fields[k].enc != enc
      {
        if fields[i].enc == enc {
          EntryAt(fields[..count], i);
          return fields[i].val;
        }
      }
      EntryAbsent(fields[..count], enc);
      return 0;
    }

    /** Updates the field in place, appends it, or drops the write when the array is full. */
    method Write(enc: Encoding, val: bv64) returns (stored: bool)
      requires Valid()
      modifies this`count, fields
      ensures Valid()
      ensures stored == Accepts(old(Contents()), enc)
      ensures Contents() == Put(old(Contents()), enc, val)
      ensures count == |Contents()|
    {
      hide Entries;
      ghost var before := fields[..count];
      EntriesSize(before);
      for i := 0 to count
        invariant forall k :: 0 <= k < i ==> fields[k].enc != enc
      {
        if fields[i].enc == enc {
          EntriesReplace(before, i, Field(enc, val));
          fields[i] := Field(enc, val);
          assert fields[..count] == before[i := Field(enc, val)];
          return true;
        }
      }
      EntryAbsent(before, enc);
      if count >= MAX_FIELDS {
        return false;
      }
      EntriesAppend(before, Field(enc, val));
      fields[count] := Field(enc, val);
      count := count + 1;
      assert fields[..count] == before + [Field(enc, val)];
      return true;
    }
  }

  // ----- what a whole history of writes leaves in the store -----

  function Encodings(log: seq<Field>): set<Encoding> {
    set i | 0 <= i < |log| :: log[i].enc
  }

  /** The value of the last write of enc in the log, or the initial value if there is none. */
  function LastWritten(log: seq<Field>, enc: Encoding, initial: bv64): bv64 {
    if log == [] then initial
    else if log[|log| - 1].enc == enc then log[|log| - 1].val
    else LastWritten(log[..|log| - 1], enc, initial)
  }

  /** No write of the log, played on m, meets a full store. */
  predicate NothingDropped(m: Store, log: seq<Field>) {
    log == [] ||
    (NothingDropped(m, log[..|log| - 1]) && Accepts(PutAll(m, log[..|log| - 1]), log[|log| - 1].enc))
  }

  /** A caller can check this before the writes: there is room for every encoding of the log. */
  predicate Room(m: Store, log: seq<Field>) {
    |Known(m, log)| <= MAX_FIELDS
  }

  /** The encodings that are stored in m or written by the log. */
  function Known(m: Store, log: seq<Field>): set<Encoding> {
    m.Keys + Encodings(log)
  }

  lemma KnownStep(m: Store, log: seq<Field>)
    ensures log == [] ==> Known(m, log) == m.Keys
    ensures log != [] ==> Known(m, log) == Known(m, log[..|log| - 1]) + {log[|log| - 1].enc}
  {
    if log != [] {
      EncodingsStep(log);
    }
  }

  lemma EncodingsStep(log: seq<Field>)
    requires log != []
    ensures Encodings(log) == Encodings(log[..|log| - 1]) + {log[|log| - 1].enc}
  {
    var front := log[..|log| - 1];
    forall e
      ensures e in Encodings(log) <==> e in Encodings(front) + {log[|log| - 1].enc}
    {
      if e in Encodings(log) {
        var i :| 0 <= i < |log| && log[i].enc == e;
        assert i < |front| ==> front[i].enc == e;
      }
      if e in Encodings(front) {
        var i :| 0 <= i < |front| && front[i].enc == e;
        assert log[i].enc == e;
      }
    }
  }

  lemma {:induction false} EncodingsConcat(a: seq<Field>, b: seq<Field>)
    ensures Encodings(a + b) == Encodings(a) + Encodings(b)
    decreases |b|
  {
    if b == [] {
      assert a + b == a;
    } else {
      EncodingsStep(a + b);
      assert (a + b)[..|a + b| - 1] == a + b[..|b| - 1];
      EncodingsConcat(a, b[..|b| - 1]);
      EncodingsStep(b);
    }
  }

  lemma {:induction false} EncodingsBound(log: seq<Field>)
    ensures |Encodings(log)| <= |log|
  {
    if log != [] {
      EncodingsStep(log);
      EncodingsBound(log[..|log| - 1]);
    }
  }

  /** Writes of different encodings need as many fields. */
  lemma {:induction false} DistinctEncodings(log: seq<Field>)
    requires Distinct(log)
    ensures |Encodings(log)| == |log|
  {
    hide Encodings;
    EncodingsBound(log);
    if log != [] {
      var front, last := log[..|log| - 1], log[|log| - 1];
      DistinctEncodings(front);
      EncodingsStep(log);
      assert last.enc !in Encodings(front) by {
        NotAmong(front, last.enc);
      }
      AddOne(Encodings(front), last.enc);
    }
  }

  lemma NotAmong(log: seq<Field>, e: Encoding)
    requires forall i :: 0 <= i < |log| ==> log[i].enc != e
    ensures e !in Encodings(log)
  {
  }

  lemma {:induction false} PutAllConcat(m: Store, a: seq<Field>, b: seq<Field>)
    ensures PutAll(m, a + b) == PutAll(PutAll(m, a), b)
    decreases |b|
  {
    if b == [] {
      assert a + b == a;
    } else {
      assert (a + b)[..|a + b| - 1] == a + b[..|b| - 1];
      PutAllConcat(m, a, b[..|b| - 1]);
    }
  }

  lemma SubsetOfEqualSize(a: set<Encoding>, b: set<Encoding>)
    requires a <= b && |a| == |b|
    ensures a == b
  {
    var d := b - a;
    assert b == a + d;
    assert |a + d| == |a| + |d|;
  }

  lemma SubsetSize(a: set<Encoding>, b: set<Encoding>)
    requires a <= b
    ensures |a| <= |b|
  {
    assert b == a + (b - a);
  }

  /** Every stored encoding holds the last value written to it, whatever was dropped in between. */
  lemma {:induction false} StoredIsLast(m: Store, log: seq<Field>, e: Encoding)
    requires e in PutAll(m, log)
    ensures PutAll(m, log)[e] == LastWritten(log, e, Lookup(m, e))
  {
    if log != [] {
      var front := log[..|log| - 1];
      if e in PutAll(m, front) {
        StoredIsLast(m, front, e);
      }
    }
  }

  /** A log fills the store up to min(256, distinct encodings) fields. */
  lemma {:induction false} ReplayCount(m: Store, log: seq<Field>)
    requires |m| <= MAX_FIELDS
    ensures m.Keys <= PutAll(m, log).Keys <= Known(m, log)
    ensures |PutAll(m, log)| == if Room(m, log) then |Known(m, log)| else MAX_FIELDS
  {
    hide Known, Put;
    KnownStep(m, log);
    if log == [] {
      assert |m.Keys| == |m|;
    } else {
      var front, last := log[..|log| - 1], log[|log| - 1];
      ReplayCount(m, front);
      PutCount(PutAll(m, front), last, Known(m, front), Known(m, log));
    }
  }

  lemma PutCount(m: Store, f: Field, written: set<Encoding>, written': set<Encoding>)
    requires m.Keys <= written && written' == written + {f.enc}
    requires |m| == if |written| <= MAX_FIELDS then |written| else MAX_FIELDS
    ensures m.Keys <= Put(m, f.enc, f.val).Keys <= written'
    ensures |Put(m, f.enc, f.val)| == if |written'| <= MAX_FIELDS then |written'| else MAX_FIELDS
  {
    assert |m.Keys| == |m|;
    if f.enc in written {
      assert written' == written;
    } else {
      assert |written'| == |written| + 1;
    }
    if |written| <= MAX_FIELDS {
      SubsetOfEqualSize(m.Keys, written);
    }
    if Accepts(m, f.enc) {
      assert m[f.enc := f.val].Keys == m.Keys + {f.enc};
    }
  }

  /** With room, exactly the old and the written encodings are stored. */
  lemma RoomKeys(m: Store, log: seq<Field>)
    requires |m| <= MAX_FIELDS && Room(m, log)
    ensures PutAll(m, log).Keys == Known(m, log)
  {
    ReplayCount(m, log);
    assert |PutAll(m, log).Keys| == |PutAll(m, log)|;
    SubsetOfEqualSize(PutAll(m, log).Keys, Known(m, log));
  }

  lemma AddOne(s: set<Encoding>, e: Encoding)
    ensures |s + {e}| == if e in s then |s| else |s| + 1
  {
    if e in s {
      assert s + {e} == s;
    }
  }

  /** No write of a log is dropped iff there was room for all its encodings. */
  lemma {:induction false} DropsNothingIff(m: Store, log: seq<Field>)
    requires |m| <= MAX_FIELDS
    ensures NothingDropped(m, log) <==> Room(m, log)
  {
    hide Known, Put;
    KnownStep(m, log);
    if log == [] {
      assert |m.Keys| == |m|;
    } else {
      var front, enc := log[..|log| - 1], log[|log| - 1].enc;
      DropsNothingIff(m, front);
      ReplayCount(m, front);
      AddOne(Known(m, front), enc);
      if Room(m, front) {
        RoomKeys(m, front);
      }
    }
  }

  /** With room, every read returns the last value written, or what was there before. */
  lemma LosslessReads(m: Store, log: seq<Field>, e: Encoding)
    requires |m| <= MAX_FIELDS && Room(m, log)
    ensures Lookup(PutAll(m, log), e) == LastWritten(log, e, Lookup(m, e))
  {
    RoomKeys(m, log);
    if e in PutAll(m, log) {
      StoredIsLast(m, log, e);
    } else {
      NeverWritten(log, e, 0);
    }
  }

  lemma {:induction false} NeverWritten(log: seq<Field>, e: Encoding, initial: bv64)
    requires e !in Encodings(log)
    ensures LastWritten(log, e, initial) == initial
  {
    if log != [] {
      EncodingsStep(log);
      NeverWritten(log[..|log| - 1], e, initial);
    }
  }

  /** Writes to other encodings, stored or dropped, leave a field alone. */
  lemma {:induction false} PutAllKeeps(m: Store, log: seq<Field>, e: Encoding)
    requires e !in Encodings(log)
    ensures e in PutAll(m, log) <==> e in m
    ensures Lookup(PutAll(m, log), e) == Lookup(m, e)
  {
    if log != [] {
      EncodingsStep(log);
      PutAllKeeps(m, log[..|log| - 1], e);
      assert log[|log| - 1].enc != e;
    }
  }

  /** If all writes of e in the log carry v, and there is one, v is the last value written. */
  lemma {:induction false} UniformLast(log: seq<Field>, e: Encoding, v: bv64, initial: bv64)
    requires e in Encodings(log)
    requires forall i :: 0 <= i < |log| && log[i].enc == e ==> log[i].val == v
    ensures LastWritten(log, e, initial) == v
  {
    var front := log[..|log| - 1];
    EncodingsStep(log);
    if log[|log| - 1].enc != e {
      forall i | 0 <= i < |front| && front[i].enc == e
        ensures front[i].val == v
      {
        assert front[i] == log[i];
      }
      UniformLast(front, e, v, initial);
    }
  }

  /** A full store keeps its encodings, whatever is written. */
  lemma FullKeepsKeys(m: Store, log: seq<Field>)
    requires |m| == MAX_FIELDS
    ensures PutAll(m, log).Keys == m.Keys
  {
    hide Known;
    ReplayCount(m, log);
    assert |m.Keys| == |m|;
    assert |PutAll(m, log).Keys| == |PutAll(m, log)|;
    if Room(m, log) {
      assert m.Keys <= Known(m, log) by { KnownKeys(m, log); }
      SubsetSize(m.Keys, Known(m, log));
    }
    SubsetOfEqualSize(m.Keys, PutAll(m, log).Keys);
  }

  lemma KnownKeys(m: Store, log: seq<Field>)
    ensures m.Keys <= Known(m, log)
  {
  }

  /** Whether an encoding that the log writes is stored in the end depends only on what comes before its
      first write: it was there, or the encodings until then number less than 256. */
  lemma FirstWriteDecides(m: Store, log: seq<Field>, i: nat)
    requires |m| <= MAX_FIELDS && i < |log| && log[i].enc !in Encodings(log[..i])
    ensures log[i].enc in PutAll(m, log) <==> log[i].enc in m || |Known(m, log[..i])| < MAX_FIELDS
  {
    hide Known, Encodings;
    var e, before, m' := log[i].enc, PutAll(m, log[..i]), PutAll(m, log[..i + 1]);
    ReplayCount(m, log[..i]);
    PutAllKeeps(m, log[..i], e);
    assert log[..i + 1][..i] == log[..i];
    assert m' == Put(before, e, log[i].val);
    assert log == log[..i + 1] + log[i + 1..];
    PutAllConcat(m, log[..i + 1], log[i + 1..]);
    ReplayCount(m, log[..i + 1]);
    ReplayCount(m', log[i + 1..]);
    if !Accepts(before, e) {
      FullKeepsKeys(m', log[i + 1..]);
    }
  }

  /** Each write of the log is without effect: its value is there, or a full store has no place for it. */
  predicate Settled(m: Store, log: seq<Field>) {
    forall i :: 0 <= i < |log| ==>
      if log[i].enc in m then m[log[i].enc] == log[i].val else |m| == MAX_FIELDS
  }

  lemma {:induction false} SettledWrites(m: Store, log: seq<Field>)
    requires Settled(m, log)
    ensures PutAll(m, log) == m
  {
    if log != [] {
      var front, last := log[..|log| - 1], log[|log| - 1];
      assert forall i :: 0 <= i < |front| ==> front[i] == log[i];
      SettledWrites(m, front);
      if last.enc in m {
        assert m[last.enc := last.val] == m;
      }
    }
  }

  /** Writes of different encodings, some of them dropped, are without effect the second time. */
  lemma ReplayAgain(m: Store, log: seq<Field>)
    requires |m| <= MAX_FIELDS
    requires forall i, j :: 0 <= i < j < |log| ==> log[i].enc != log[j].enc
    ensures PutAll(PutAll(m, log), log) == PutAll(m, log)
  {
    hide Encodings, Known;
    var m' := PutAll(m, log);
    ReplayCount(m, log);
    forall i | 0 <= i < |log|
      ensures if log[i].enc in m' then m'[log[i].enc] == log[i].val else |m'| == MAX_FIELDS
    {
      if log[i].enc in m' {
        StoredIsLast(m, log, log[i].enc);
        AmongEncodings(log, i);
        UniformLast(log, log[i].enc, log[i].val, Lookup(m, log[i].enc));
      } else if Room(m, log) {
        AmongEncodings(log, i);
        KnownWrites(m, log, log[i].enc);
        RoomKeys(m, log);
      }
    }
    SettledWrites(m', log);
  }

  lemma AmongEncodings(log: seq<Field>, i: nat)
    requires i < |log|
    ensures log[i].enc in Encodings(log)
  {
  }

  lemma KnownWrites(m: Store, log: seq<Field>, e: Encoding)
    requires e in Encodings(log)
    ensures e in Known(m, log)
  {
  }

  // ----- every sequence of the store's own operations -----

  datatype Operation = Reset | Write(enc: Encoding, val: bv64) | Read(of: Encoding)

  /** The store after the operations. */
  function Play(ops: seq<Operation>): Store {
    if ops == [] then map[]
    else
      var m := Play(ops[..|ops| - 1]);
      match ops[|ops| - 1]
      case Reset => map[]
      case Write(enc, val) => Put(m, enc, val)
      case Read(_) => m
  }

  /** The writes since the last reset. */
  function SinceReset(ops: seq<Operation>): seq<Field> {
    if ops == [] then []
    else
      var log := SinceReset(ops[..|ops| - 1]);
      match ops[|ops| - 1]
      case Reset => []
      case Write(enc, val) => log + [Field(enc, val)]
      case Read(_) => log
  }

  lemma {:induction false} PlayIsLog(ops: seq<Operation>)
    ensures Play(ops) == PutAll(map[], SinceReset(ops))
  {
    hide Put;
    if ops != [] {
      PlayIsLog(ops[..|ops| - 1]);
      var log := SinceReset(ops[..|ops| - 1]);
      match ops[|ops| - 1]
      case Reset =>
      case Write(enc, val) => assert (log + [Field(enc, val)])[..|log|] == log;
      case Read(_) =>
    }
  }

  /** In every reachable store the number of fields is min(256, distinct encodings written since the last
      reset), and every field holds the last value written to it since then. */
  lemma ReachableStore(ops: seq<Operation>)
    ensures var m := Play(ops); var n := |Encodings(SinceReset(ops))|;
      && |m| == (if n <= MAX_FIELDS then n else MAX_FIELDS)
      && (forall e :: e in m ==> e in Encodings(SinceReset(ops)) && m[e] == LastWritten(SinceReset(ops), e, 0))
  {
    hide Encodings;
    var log := SinceReset(ops);
    var empty: Store := map[];
    PlayIsLog(ops);
    assert Known(empty, log) == Encodings(log);
    ReplayCount(empty, log);
    forall e | e in Play(ops)
      ensures Play(ops)[e] == LastWritten(log, e, 0)
    {
      StoredIsLast(empty, log, e);
    }
  }
}
