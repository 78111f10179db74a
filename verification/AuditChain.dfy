/**
 The hash-chained audit log: writer, verifier, and what a verified log is worth.

 The keyed hash is HMAC-SHA256 (section 2 of RFC 2104), taken as an arbitrary function from byte strings to
 32 bytes. No such function is injective, so results that rest on collision resistance either name the pair
 of messages that collide or assume that the messages of the log at hand do not.
*/
module AuditChain {
  import opened Common
  import opened Json
  import JsonReader

  /** Byte strings, each byte as its number. */
  type Bytes = seq<int>

  const HASH_SIZE: nat := 32
  const GENESIS: Bytes :=
      [0, 0, 0, 0, 0, 0, 0, 0, 0, 0, 0, 0, 0, 0, 0, 0, 0, 0, 0, 0, 0, 0, 0, 0, 0, 0, 0, 0, 0, 0, 0, 0]

  /** The keyed hash and the ISO 8601 rendering of UTC instants, both from foreign libraries. */
  datatype Env = Env(mac: Bytes -> Bytes, iso: int -> string)

  ghost predicate EnvOk(env: Env) {
    && (forall m: Bytes :: |env.mac(m)| == HASH_SIZE)
    && (forall a: int, b: int :: env.iso(a) == env.iso(b) ==> a == b)
  }

  /** Microseconds on the local clock, with the clock's offset from UTC when it is known. */
  datatype Instant = Naive(local: int) | Aware(local: int, offset: int)

  /** A naive time is taken to be UTC already. */
  function Utc(t: Instant): int { match t case Naive(l) => l case Aware(l, o) => l - o }

  /** Ids are their canonical text. */
  datatype Entry = Entry(
    userId: Option<string>, action: string, resourceType: string, resourceId: Option<string>,
    ip: Option<string>, details: Fields, occurredAt: Instant)

  datatype LogRow = LogRow(sequenceNo: int, entry: Entry, prevHash: Bytes, hash: Bytes)

  function OptText(o: Option<string>): Value { if o.Some? then Str(o.value) else Null }

  /** An empty address counts as none. */
  function IpText(ip: Option<string>): Value { if ip.Some? && ip.value != "" then Str(ip.value) else Null }

  function Payload(env: Env, sequenceNo: int, e: Entry): Value
  {
    Obj(Field("action", Str(e.action),
        Field("details", Obj(e.details),
        Field("ip_address", IpText(e.ip),
        Field("occurred_at", Str(env.iso(Utc(e.occurredAt))),
        Field("resource_id", OptText(e.resourceId),
        Field("resource_type", Str(e.resourceType),
        Field("sequence_no", Int(sequenceNo),
        Field("user_id", OptText(e.userId), NoFields)))))))))
  }

  /** encode("utf-8") on text that is ASCII, as Json.WriteIsAscii says the canonical text always is. */
  function AsciiBytes(text: string): (b: Bytes)
    ensures |b| == |text| && forall i | 0 <= i < |text| :: b[i] == text[i] as int
  {
    if text == [] then [] else [text[0] as int] + AsciiBytes(text[1..])
  }

  lemma {:induction false} AsciiBytesInjective(s: string, t: string)
    requires AsciiBytes(s) == AsciiBytes(t)
    ensures s == t
  {
    assert |s| == |t|;
    forall i | 0 <= i < |s|
      ensures s[i] == t[i]
    {
      assert AsciiBytes(s)[i] == AsciiBytes(t)[i];
    }
  }

  /** The canonical bytes of a row: the text is ASCII, so its UTF-8 bytes are its characters. */
  function SerializeForChain(env: Env, sequenceNo: int, e: Entry): Bytes
  {
    AsciiBytes(Write(Payload(env, sequenceNo, e)))
  }

  function Message(env: Env, row: LogRow): Bytes
  {
    row.prevHash + SerializeForChain(env, row.sequenceNo, row.entry)
  }

  function ChainHash(env: Env, prev: Bytes, payload: Bytes): Bytes { env.mac(prev + payload) }

  // ------------------------------------------------------------------ the hashed text, written out

  /** The instant in UTC: the local clock less its offset. */
  predicate IsUtc(t: Instant, utc: int) {
    match t
    case Naive(local) => utc == local
    case Aware(local, offset) => utc + offset == local
  }

  function QuotedOrNull(o: Option<string>): string { if o.Some? then Quoted(o.value) else "null" }

  /** "name":text */
  function Member(name: string, text: string): string { ['"'] + name + ['"', ':'] + text }

  function Then(member: string, others: string): string { member + [','] + others }

  function IpOrNull(ip: Option<string>): string { if ip == Some("") then "null" else QuotedOrNull(ip) }

  /** The eight members in key order, between commas; an empty address is null. */
  function CanonicalText(env: Env, sequenceNo: int, e: Entry, utc: int): string
  {
    ['{']
    + Then(Member("action", Quoted(e.action)),
      Then(Member("details", Write(Obj(e.details))),
      Then(Member("ip_address", IpOrNull(e.ip)),
      Then(Member("occurred_at", Quoted(env.iso(utc))),
      Then(Member("resource_id", QuotedOrNull(e.resourceId)),
      Then(Member("resource_type", Quoted(e.resourceType)),
      Then(Member("sequence_no", IntText(sequenceNo)),
           Member("user_id", QuotedOrNull(e.userId)))))))))
    + ['}']
  }

  predicate PlainText(s: string) { forall i | 0 <= i < |s| :: 32 <= s[i] as int <= 126 && s[i] != '"' && s[i] != '\\' }

  lemma {:induction false} PlainIsQuoted(s: string)
    requires PlainText(s)
    ensures Escape(s) == s && Quoted(s) == ['"'] + s + ['"']
  {
    if s != [] {
      PlainIsQuoted(s[1..]);
      assert s == [s[0]] + s[1..];
    }
  }

  predicate PlainKeys(f: Fields) { f.Field? ==> PlainText(f.key) && PlainKeys(f.rest) }

  function MembersOf(f: Fields): string
    requires f.Field?
  {
    var member := Member(f.key, Write(f.value));
    if f.rest.NoFields? then member else Then(member, MembersOf(f.rest))
  }

  lemma {:induction false} FieldsAreMembers(f: Fields, first: bool)
    requires f.Field? && PlainKeys(f)
    ensures WriteFields(f, first) == (if first then [] else [',']) + (MembersOf(f) + ['}'])
    decreases f
  {
    var separator, member := if first then [] else [','], Member(f.key, Write(f.value));
    PlainIsQuoted(f.key);
    MemberText(separator, f.key, Write(f.value), WriteFields(f.rest, false));
    if f.rest.Field? {
      FieldsAreMembers(f.rest, false);
      Assoc(member, [','], MembersOf(f.rest));
      Assoc(member, [','] + MembersOf(f.rest), ['}']);
      Assoc([','], MembersOf(f.rest), ['}']);
    }
  }

  lemma MemberText(separator: string, key: string, text: string, rest: string)
    ensures separator + (['"'] + key + ['"']) + [':'] + text + rest == separator + (Member(key, text) + rest)
  {
    assert (['"'] + key + ['"']) + [':'] + text == Member(key, text);
  }

  lemma ObjectText(f: Fields)
    requires f.Field? && PlainKeys(f)
    ensures Write(Obj(f)) == ['{'] + MembersOf(f) + ['}']
  {
    FieldsAreMembers(f, true);
    NothingBefore(MembersOf(f) + ['}']);
    Assoc(['{'], MembersOf(f), ['}']);
  }

  lemma NothingBefore(s: string)
    ensures [] + s == s
  {
  }

  lemma OneMember(k: string, v: Value, rest: Fields)
    requires rest.Field? && PlainText(k) && PlainKeys(rest)
    ensures PlainKeys(Field(k, v, rest))
    ensures MembersOf(Field(k, v, rest)) == Then(Member(k, Write(v)), MembersOf(rest))
  {
  }

  lemma OptionalTexts(e: Entry)
    ensures Write(OptText(e.userId)) == QuotedOrNull(e.userId)
    ensures Write(OptText(e.resourceId)) == QuotedOrNull(e.resourceId)
    ensures Write(IpText(e.ip)) == IpOrNull(e.ip)
  {
  }

  lemma NamesArePlain()
    ensures PlainText("action") && PlainText("details") && PlainText("ip_address") && PlainText("occurred_at")
    ensures PlainText("resource_id") && PlainText("resource_type") && PlainText("sequence_no") && PlainText("user_id")
  {
  }

  /** The members from the resource on. */
  function LaterFields(sequenceNo: int, e: Entry): Fields
  {
    Field("resource_id", OptText(e.resourceId),
    Field("resource_type", Str(e.resourceType),
    Field("sequence_no", Int(sequenceNo),
    Field("user_id", OptText(e.userId), NoFields))))
  }

  lemma LaterMembers(sequenceNo: int, e: Entry)
    ensures PlainKeys(LaterFields(sequenceNo, e))
    ensures MembersOf(LaterFields(sequenceNo, e))
         == Then(Member("resource_id", QuotedOrNull(e.resourceId)),
            Then(Member("resource_type", Quoted(e.resourceType)),
            Then(Member("sequence_no", IntText(sequenceNo)),
                 Member("user_id", QuotedOrNull(e.userId)))))
  {
    var f8 := Field("user_id", OptText(e.userId), NoFields);
    var f7 := Field("sequence_no", Int(sequenceNo), f8);
    var f6 := Field("resource_type", Str(e.resourceType), f7);
    NamesArePlain();
    OneMember("sequence_no", Int(sequenceNo), f8);
    OneMember("resource_type", Str(e.resourceType), f7);
    OneMember("resource_id", OptText(e.resourceId), f6);
    OptionalTexts(e);
  }

  /** Those before them. */
  function EarlierFields(iso: string, e: Entry, later: Fields): Fields
  {
    Field("action", Str(e.action),
    Field("details", Obj(e.details),
    Field("ip_address", IpText(e.ip),
    Field("occurred_at", Str(iso), later))))
  }

  lemma EarlierMembers(iso: string, e: Entry, later: Fields)
    requires later.Field? && PlainKeys(later)
    ensures var f := EarlierFields(iso, e, later);
            && f.Field? && PlainKeys(f)
            && MembersOf(f) == Then(Member("action", Quoted(e.action)),
                               Then(Member("details", Write(Obj(e.details))),
                               Then(Member("ip_address", IpOrNull(e.ip)),
                               Then(Member("occurred_at", Quoted(iso)), MembersOf(later)))))
  {
    var f3 := Field("ip_address", IpText(e.ip), Field("occurred_at", Str(iso), later));
    MiddleMembers(iso, e, later);
    NamesArePlain();
    OneMember("details", Obj(e.details), f3);
    OneMember("action", Str(e.action), Field("details", Obj(e.details), f3));
  }

  lemma MiddleMembers(iso: string, e: Entry, later: Fields)
    requires later.Field? && PlainKeys(later)
    ensures var f := Field("ip_address", IpText(e.ip), Field("occurred_at", Str(iso), later));
            && PlainKeys(f)
            && MembersOf(f) == Then(Member("ip_address", IpOrNull(e.ip)),
                               Then(Member("occurred_at", Quoted(iso)), MembersOf(later)))
  {
    NamesArePlain();
    OneMember("occurred_at", Str(iso), later);
    OneMember("ip_address", IpText(e.ip), Field("occurred_at", Str(iso), later));
    OptionalTexts(e);
  }

  /** The text whose bytes are hashed. */
  lemma HashedText(env: Env, sequenceNo: int, e: Entry, utc: int)
    requires IsUtc(e.occurredAt, utc)
    ensures Write(Payload(env, sequenceNo, e)) == CanonicalText(env, sequenceNo, e, utc)
    ensures SerializeForChain(env, sequenceNo, e) == AsciiBytes(CanonicalText(env, sequenceNo, e, utc))
  {
    LaterMembers(sequenceNo, e);
    EarlierMembers(env.iso(utc), e, LaterFields(sequenceNo, e));
    PayloadFields(env, sequenceNo, e, utc);
    ObjectText(EarlierFields(env.iso(utc), e, LaterFields(sequenceNo, e)));
  }

  lemma PayloadFields(env: Env, sequenceNo: int, e: Entry, utc: int)
    requires IsUtc(e.occurredAt, utc)
    ensures Payload(env, sequenceNo, e) == Obj(EarlierFields(env.iso(utc), e, LaterFields(sequenceNo, e)))
  {
  }

  /** A reader of the hashed text gets back the members that were written. */
  lemma HashedTextReads(env: Env, sequenceNo: int, e: Entry)
    ensures JsonReader.ReadValue(Write(Payload(env, sequenceNo, e)))
         == Some(JsonReader.Read(Payload(env, sequenceNo, e), []))
  {
    JsonReader.ReadsBack(Payload(env, sequenceNo, e), []);
    assert Write(Payload(env, sequenceNo, e)) + [] == Write(Payload(env, sequenceNo, e));
  }

  // ------------------------------------------------------------------ verification

  predicate HashOk(env: Env, row: LogRow) {
    ChainHash(env, row.prevHash, SerializeForChain(env, row.sequenceNo, row.entry)) == row.hash
  }

  /** Every row's hash is right and every row but the first continues its predecessor. */
  predicate ChainOk(env: Env, rows: seq<LogRow>) {
    && (forall i | 0 <= i < |rows| :: HashOk(env, rows[i]))
    && (forall i | 1 <= i < |rows| :: rows[i].prevHash == rows[i - 1].hash)
  }

  datatype VerifyError = InvalidRange | Broken(sequenceNo: int)

  /** The rows of a date range, in sequence order. */
  function InRange(from: Option<int>, to: Option<int>): LogRow -> bool
  {
    (r: LogRow) => (from.Some? ==> Utc(r.entry.occurredAt) >= from.value)
                && (to.Some? ==> Utc(r.entry.occurredAt) <= to.value)
  }

  class AuditService {
    const env: Env
    /** The table in sequence_no order. */
    var log: seq<LogRow>

    constructor(env: Env)
      ensures this.env == env && log == []
    {
      this.env := env;
      log := [];
    }

    /** One serialized `record` call. The database assigns a sequence number above all earlier ones. */
    method Record(e: Entry, sequenceNo: int) returns (row: LogRow)
      requires forall r | r in log :: r.sequenceNo < sequenceNo
      modifies this
      ensures log == old(log) + [row]
      ensures row.sequenceNo == sequenceNo && row.entry == e
      ensures if old(log) == [] then |row.prevHash| == 32 && forall i | 0 <= i < 32 :: row.prevHash[i] == 0
              else row.prevHash == old(log)[|old(log)| - 1].hash
      ensures forall utc | IsUtc(e.occurredAt, utc) ::
                row.hash == env.mac(row.prevHash + AsciiBytes(CanonicalText(env, sequenceNo, e, utc)))
      ensures row == NextRow(env, old(log), e, sequenceNo)
    {
      var prevHash := if log == [] then GENESIS else log[|log| - 1].hash;
      row := LogRow(sequenceNo, e, prevHash, GENESIS);
      var payload := SerializeForChain(env, row.sequenceNo, row.entry);
      row := row.(hash := ChainHash(env, prevHash, payload));
      log := log + [row];
      forall utc | IsUtc(e.occurredAt, utc)
        ensures payload == AsciiBytes(CanonicalText(env, sequenceNo, e, utc))
      {
        HashedText(env, sequenceNo, e, utc);
      }
    }

    /** Verification succeeds with the number of rows exactly when the selected rows form a chain, and
        otherwise reports the row at which the longest sound prefix ends. */
    method VerifyChain(from: Option<int>, to: Option<int>) returns (result: Result<nat, VerifyError>)
      ensures result == Err(InvalidRange) <==> from.Some? && to.Some? && to.value < from.value
      ensures result != Err(InvalidRange) ==>
        (result.Ok? <==> ChainOk(env, Filter(InRange(from, to), log)))
      ensures result.Ok? ==> result.value == |Filter(InRange(from, to), log)|
      ensures forall r: LogRow, utc: int | IsUtc(r.entry.occurredAt, utc) :: r in Filter(InRange(from, to), log) <==>
                r in log && (from.Some? ==> from.value <= utc) && (to.Some? ==> utc <= to.value)
      ensures result.Err? && result.error.Broken? ==>
                exists k :: FirstBreak(env, Filter(InRange(from, to), log), k, result.error.sequenceNo)
    {
      if from.Some? && to.Some? && to.value < from.value {
        return Err(InvalidRange);
      }
      var rows := Filter(InRange(from, to), log);
      if rows == [] {
        return Ok(0);
      }
      var k := WalkChain(rows);
      if k < |rows| {
        BreakRefutes(env, rows, k, rows[k].sequenceNo);
        assert FirstBreak(env, rows, k, rows[k].sequenceNo);
        return Err(Broken(rows[k].sequenceNo));
      }
      assert rows[..k] == rows;
      return Ok(|rows|);
    }

    /** The loop of VerifyChain: the index of the first unsound row, or the number of rows. */
    method WalkChain(rows: seq<LogRow>) returns (k: nat)
      requires rows != []
      ensures k <= |rows| && ChainOk(env, rows[..k])
      ensures k < |rows| ==> FirstBreak(env, rows, k, rows[k].sequenceNo)
    {
      var expectedPrev := rows[0].prevHash;
      k := 0;
      while k < |rows|
        invariant k <= |rows| && ChainOk(env, rows[..k])
        invariant expectedPrev == if k == 0 then rows[0].prevHash else rows[k - 1].hash
      {
        var row := rows[k];
        if row.prevHash != expectedPrev {
          return;
        }
        var recomputed := ChainHash(env, row.prevHash, SerializeForChain(env, row.sequenceNo, row.entry));
        if recomputed != row.hash {
          return;
        }
        ChainExtends(env, rows, k);
        expectedPrev := row.hash;
        k := k + 1;
      }
    }
  }

  predicate FirstBreak(env: Env, rows: seq<LogRow>, k: nat, sequenceNo: int) {
    && k < |rows| && rows[k].sequenceNo == sequenceNo
    && ChainOk(env, rows[..k])
    && !(HashOk(env, rows[k]) && (k > 0 ==> rows[k].prevHash == rows[k - 1].hash))
  }

  lemma ChainExtends(env: Env, rows: seq<LogRow>, k: nat)
    requires k < |rows| && ChainOk(env, rows[..k]) && HashOk(env, rows[k])
             && (k > 0 ==> rows[k].prevHash == rows[k - 1].hash)
    ensures ChainOk(env, rows[..k + 1])
  {
    assert rows[..k + 1] == rows[..k] + [rows[k]];
    ChainAppend(env, rows[..k], rows[k]);
  }

  lemma BreakRefutes(env: Env, rows: seq<LogRow>, k: nat, sequenceNo: int)
    requires FirstBreak(env, rows, k, sequenceNo)
    ensures !ChainOk(env, rows)
  {
  }

  // ------------------------------------------------------------------ honest logs

  function NextRow(env: Env, log: seq<LogRow>, e: Entry, sequenceNo: int): LogRow
  {
    var prev := if log == [] then GENESIS else log[|log| - 1].hash;
    LogRow(sequenceNo, e, prev, ChainHash(env, prev, SerializeForChain(env, sequenceNo, e)))
  }

  /** The log after a series of `record` calls. */
  function Recorded(env: Env, calls: seq<(int, Entry)>): (log: seq<LogRow>)
    ensures |log| == |calls|
  {
    if calls == [] then []
    else
      var front, last := Recorded(env, calls[..|calls| - 1]), calls[|calls| - 1];
      front + [NextRow(env, front, last.1, last.0)]
  }

  /** The first row of every log that record calls build has 32 zero bytes as its previous hash. */
  lemma {:induction false} RecordedStartsWithZeros(env: Env, calls: seq<(int, Entry)>)
    requires calls != []
    ensures var first := Recorded(env, calls)[0].prevHash;
            |first| == 32 && forall i | 0 <= i < 32 :: first[i] == 0
  {
    if |calls| > 1 {
      RecordedStartsWithZeros(env, calls[..|calls| - 1]);
    } else {
      assert Recorded(env, calls[..0]) == [];
    }
  }

  predicate Follows(log: seq<LogRow>, row: LogRow) { log != [] ==> row.prevHash == log[|log| - 1].hash }

  lemma ChainAppend(env: Env, log: seq<LogRow>, row: LogRow)
    ensures ChainOk(env, log + [row]) <==> ChainOk(env, log) && HashOk(env, row) && Follows(log, row)
  {
    var longer := log + [row];
    assert longer[|log|] == row;
    if ChainOk(env, longer) {
      assert forall i | 0 <= i < |log| :: longer[i] == log[i];
    }
  }

  /** Every log built by record calls verifies and keeps what was recorded, in order. */
  lemma {:induction false} RecordedVerifies(env: Env, calls: seq<(int, Entry)>)
    ensures ChainOk(env, Recorded(env, calls))
    ensures forall i | 0 <= i < |calls| ::
              Recorded(env, calls)[i].sequenceNo == calls[i].0 && Recorded(env, calls)[i].entry == calls[i].1
  {
    if calls != [] {
      var front, last := Recorded(env, calls[..|calls| - 1]), calls[|calls| - 1];
      RecordedVerifies(env, calls[..|calls| - 1]);
      ChainAppend(env, front, NextRow(env, front, last.1, last.0));
    }
  }

  /** Verification of a concatenation splits at any point: both parts verify and the seam matches. */
  lemma VerifyConcat(env: Env, a: seq<LogRow>, b: seq<LogRow>)
    requires a != [] && b != []
    ensures ChainOk(env, a + b) <==> ChainOk(env, a) && ChainOk(env, b) && b[0].prevHash == a[|a| - 1].hash
  {
    var c := a + b;
    assert forall i | 0 <= i < |a| :: c[i] == a[i];
    assert forall i | 0 <= i < |b| :: c[|a| + i] == b[i];
    if ChainOk(env, c) {
      assert c[|a|].prevHash == c[|a| - 1].hash;
      forall i | 1 <= i < |b|
        ensures b[i].prevHash == b[i - 1].hash
      {
        assert c[|a| + i].prevHash == c[|a| + i - 1].hash;
      }
    }
  }

  // ------------------------------------------------------------------ date ranges

  /** No unselected row lies between two selected ones. */
  predicate Contiguous(p: LogRow -> bool, log: seq<LogRow>) {
    forall i, j, k | 0 <= i < j < k < |log| && p(log[i]) && p(log[k]) :: p(log[j])
  }

  predicate DistinctHashes(log: seq<LogRow>) {
    forall i, j | 0 <= i < j < |log| :: log[i].hash != log[j].hash
  }

  /** Where the last selected row is: after it nothing is selected. */
  lemma {:induction false} LastSelected(p: LogRow -> bool, log: seq<LogRow>) returns (i: nat)
    requires Filter(p, log) != []
    ensures i < |log| && p(log[i]) && log[i] == Filter(p, log)[|Filter(p, log)| - 1]
    ensures forall j | i < j < |log| :: !p(log[j])
  {
    var front, last := log[..|log| - 1], log[|log| - 1];
    assert log == front + [last];
    FilterSnoc(p, front, last);
    if p(last) {
      i := |log| - 1;
    } else {
      i := LastSelected(p, front);
    }
  }

  /** The next row, if selected, would continue the selection: nothing is selected yet, or the last row is. */
  predicate Adjacent(p: LogRow -> bool, front: seq<LogRow>) {
    (forall i | 0 <= i < |front| :: !p(front[i])) || p(front[|front| - 1])
  }

  lemma ContiguousAppend(p: LogRow -> bool, log: seq<LogRow>, row: LogRow)
    ensures Contiguous(p, log + [row]) <==>
      Contiguous(p, log) && (p(row) ==> Adjacent(p, log))
  {
    var longer, n := log + [row], |log|;
    assert forall i | 0 <= i < n :: longer[i] == log[i];
    assert longer[n] == row;
    assert Contiguous(p, longer) && p(row) ==> forall i | 0 <= i < n - 1 && p(log[i]) :: p(log[n - 1]) by {
      assert forall i | 0 <= i < n - 1 && p(longer[i]) && p(longer[n]) && !p(longer[n - 1]) :: !Contiguous(p, longer);
    }
  }

  /** A range of a sound log with distinct hashes verifies exactly when it selects a contiguous run. */
  lemma {:induction false} RangeVerifiesIffContiguous(env: Env, p: LogRow -> bool, log: seq<LogRow>)
    requires ChainOk(env, log) && DistinctHashes(log)
    ensures ChainOk(env, Filter(p, log)) <==> Contiguous(p, log)
  {
    if log != [] {
      var front, last := log[..|log| - 1], log[|log| - 1];
      assert log == front + [last];
      ChainAppend(env, front, last);
      RangeVerifiesIffContiguous(env, p, front);
      ContiguousAppend(p, front, last);
      FilterSnoc(p, front, last);
      if p(last) {
        ChainAppend(env, Filter(p, front), last);
        SeamIffAdjacent(p, front, last);
      }
    }
  }

  lemma SeamIffAdjacent(p: LogRow -> bool, front: seq<LogRow>, last: LogRow)
    requires DistinctHashes(front) && Follows(front, last)
    ensures Follows(Filter(p, front), last) <==> Adjacent(p, front)
  {
    if Filter(p, front) == [] {
      NoneSelected(p, front);
    } else {
      var i := LastSelected(p, front);
      LastSeam(front, last, i);
      LastIsAdjacent(p, front, i);
    }
  }

  lemma LastIsAdjacent(p: LogRow -> bool, front: seq<LogRow>, i: nat)
    requires i < |front| && p(front[i]) && forall j | i < j < |front| :: !p(front[j])
    ensures Adjacent(p, front) <==> i == |front| - 1
  {
  }

  lemma NoneSelected(p: LogRow -> bool, log: seq<LogRow>)
    requires Filter(p, log) == []
    ensures forall i | 0 <= i < |log| :: !p(log[i])
  {
    forall i | 0 <= i < |log|
      ensures !p(log[i])
    {
      assert log[i] in Filter(p, log) <==> log[i] in log && p(log[i]);
    }
  }

  lemma LastSeam(front: seq<LogRow>, last: LogRow, i: nat)
    requires i < |front| && DistinctHashes(front) && Follows(front, last)
    ensures last.prevHash == front[i].hash <==> i == |front| - 1
  {
    assert i < |front| - 1 ==> front[i].hash != front[|front| - 1].hash;
  }

  predicate ClockNeverStepsBack(log: seq<LogRow>) {
    forall i, j | 0 <= i < j < |log| :: Utc(log[i].entry.occurredAt) <= Utc(log[j].entry.occurredAt)
  }

  /** A contiguous run of a sound log verifies, whatever the hash function does. */
  lemma {:induction false} ContiguousVerifies(env: Env, p: LogRow -> bool, log: seq<LogRow>)
    requires ChainOk(env, log) && Contiguous(p, log)
    ensures ChainOk(env, Filter(p, log))
  {
    if log != [] {
      var front, last := log[..|log| - 1], log[|log| - 1];
      assert log == front + [last];
      ChainAppend(env, front, last);
      ContiguousAppend(p, front, last);
      ContiguousVerifies(env, p, front);
      FilterSnoc(p, front, last);
      if p(last) {
        ChainAppend(env, Filter(p, front), last);
        ContiguousSeam(p, front, last);
      }
    }
  }

  lemma ContiguousSeam(p: LogRow -> bool, front: seq<LogRow>, last: LogRow)
    requires Adjacent(p, front) && Follows(front, last)
    ensures Follows(Filter(p, front), last)
  {
    if Filter(p, front) != [] {
      var i := LastSelected(p, front);
      assert i == |front| - 1;
    }
  }

  /** With a non-decreasing clock every date range of a sound log verifies. */
  lemma EveryRangeVerifies(env: Env, log: seq<LogRow>, from: Option<int>, to: Option<int>)
    requires ChainOk(env, log) && ClockNeverStepsBack(log)
    ensures ChainOk(env, Filter(InRange(from, to), log))
  {
    assert Contiguous(InRange(from, to), log);
    ContiguousVerifies(env, InRange(from, to), log);
  }

  predicate ClockNeverStepsForward(log: seq<LogRow>) {
    forall i, j | 0 <= i < j < |log| :: Utc(log[i].entry.occurredAt) >= Utc(log[j].entry.occurredAt)
  }

  predicate RangeVerifies(env: Env, log: seq<LogRow>, from: Option<int>, to: Option<int>) {
    ChainOk(env, Filter(InRange(from, to), log))
  }

  function Instants(log: seq<LogRow>): (t: seq<int>)
    ensures |t| == |log| && forall i | 0 <= i < |log| :: t[i] == Utc(log[i].entry.occurredAt)
  {
    seq(|log|, i requires 0 <= i < |log| => Utc(log[i].entry.occurredAt))
  }

  predicate Rising(t: seq<int>) { forall i, j | 0 <= i < j < |t| :: t[i] <= t[j] }

  predicate Falling(t: seq<int>) { forall i, j | 0 <= i < j < |t| :: t[i] >= t[j] }

  /** An instant that lies outside those of an earlier and a later one. */
  predicate TurnsAt(t: seq<int>, i: nat, j: nat, k: nat) {
    i < j < k < |t| && ((t[j] > t[i] && t[j] > t[k]) || (t[j] < t[i] && t[j] < t[k]))
  }

  /** A clock that moves both ways turns somewhere. */
  lemma {:induction false} TurningPoint(t: seq<int>) returns (i: nat, j: nat, k: nat)
    requires !Rising(t) && !Falling(t)
    ensures TurnsAt(t, i, j, k)
  {
    var front := t[..|t| - 1];
    if Rising(front) {
      LastTurnsDown(t);
      i, j, k := 0, |t| - 2, |t| - 1;
    } else if Falling(front) {
      LastTurnsUp(t);
      i, j, k := 0, |t| - 2, |t| - 1;
    } else {
      i, j, k := TurningPoint(front);
    }
  }

  /** When all but the last instant rise, the turn is at the end. */
  lemma LastTurnsDown(t: seq<int>)
    requires !Rising(t) && !Falling(t) && Rising(t[..|t| - 1])
    ensures |t| >= 3 && t[0] < t[|t| - 2] && t[|t| - 1] < t[|t| - 2]
  {
    var front, n := t[..|t| - 1], |t| - 1;
    var a, b :| 0 <= a < b < |t| && t[a] > t[b];
    var c, d :| 0 <= c < d < |t| && t[c] < t[d];
    assert forall m, l | 0 <= m < l < n :: front[m] == t[m] && front[l] == t[l] && t[m] <= t[l];
    assert front[a] <= front[n - 1] || a == n - 1;
    assert forall m | 0 <= m < n :: (m == 0 || front[0] <= front[m]) && (m == n - 1 || front[m] <= front[n - 1]);
  }

  lemma LastTurnsUp(t: seq<int>)
    requires !Rising(t) && !Falling(t) && Falling(t[..|t| - 1])
    ensures |t| >= 3 && t[0] > t[|t| - 2] && t[|t| - 1] > t[|t| - 2]
  {
    var front, n := t[..|t| - 1], |t| - 1;
    var a, b :| 0 <= a < b < |t| && t[a] < t[b];
    var c, d :| 0 <= c < d < |t| && t[c] > t[d];
    assert forall m, l | 0 <= m < l < n :: front[m] == t[m] && front[l] == t[l] && t[m] >= t[l];
    assert front[a] >= front[n - 1] || a == n - 1;
    assert forall m | 0 <= m < n :: (m == 0 || front[0] >= front[m]) && (m == n - 1 || front[m] >= front[n - 1]);
  }

  /** The range from the earlier to the later of two instants leaves out the turn between them. */
  lemma TurnBreaksRange(env: Env, log: seq<LogRow>, i: nat, j: nat, k: nat) returns (from: Option<int>, to: Option<int>)
    requires ChainOk(env, log) && DistinctHashes(log) && TurnsAt(Instants(log), i, j, k)
    ensures from.Some? && to.Some? && from.value <= to.value && !RangeVerifies(env, log, from, to)
  {
    var x, z := Utc(log[i].entry.occurredAt), Utc(log[k].entry.occurredAt);
    from, to := Some(if x < z then x else z), Some(if x < z then z else x);
    var p := InRange(from, to);
    assert p(log[i]) && p(log[k]) && !p(log[j]);
    assert !Contiguous(p, log);
    RangeVerifiesIffContiguous(env, p, log);
  }

  /** Exactly when no date range of a sound log fails: when its clock only ever moved one way. */
  lemma EveryRangeVerifiesIffMonotone(env: Env, log: seq<LogRow>)
    requires ChainOk(env, log) && DistinctHashes(log)
    ensures (forall from, to :: RangeVerifies(env, log, from, to))
       <==> ClockNeverStepsBack(log) || ClockNeverStepsForward(log)
  {
    if ClockNeverStepsBack(log) || ClockNeverStepsForward(log) {
      forall from, to
        ensures RangeVerifies(env, log, from, to)
      {
        assert Contiguous(InRange(from, to), log);
        ContiguousVerifies(env, InRange(from, to), log);
      }
    } else {
      assert !Rising(Instants(log)) && !Falling(Instants(log));
      var i, j, k := TurningPoint(Instants(log));
      var from, to := TurnBreaksRange(env, log, i, j, k);
    }
  }

  /** Three calls at the instants 0, 10 and 5: the log is sound, and the range from 0 to 5 of it does not
      verify, unless hashes coincide. */
  lemma BackwardClockBreaksARange(env: Env, e: Entry)
    requires DistinctHashes(RecordedAt(env, e))
    ensures ChainOk(env, RecordedAt(env, e)) && !RangeVerifies(env, RecordedAt(env, e), Some(0), Some(5))
  {
    var log := RecordedAt(env, e);
    RecordedVerifies(env, CallsAt(e));
    assert log[0].entry == e.(occurredAt := Naive(0)) && log[1].entry == e.(occurredAt := Naive(10))
           && log[2].entry == e.(occurredAt := Naive(5));
    var p := InRange(Some(0), Some(5));
    assert p(log[0]) && p(log[2]) && !p(log[1]);
    assert !Contiguous(p, log);
    RangeVerifiesIffContiguous(env, p, log);
  }

  function CallsAt(e: Entry): seq<(int, Entry)>
  {
    [(1, e.(occurredAt := Naive(0))), (2, e.(occurredAt := Naive(10))), (3, e.(occurredAt := Naive(5)))]
  }

  function RecordedAt(env: Env, e: Entry): seq<LogRow> { Recorded(env, CallsAt(e)) }

  // ------------------------------------------------------------------ binding

  /** Equality of everything the hash covers, after the code's own normalizations. */
  predicate SameHashedFields(a: LogRow, b: LogRow) {
    && a.sequenceNo == b.sequenceNo
    && a.entry.userId == b.entry.userId
    && a.entry.action == b.entry.action
    && a.entry.resourceType == b.entry.resourceType
    && a.entry.resourceId == b.entry.resourceId
    && IpText(a.entry.ip) == IpText(b.entry.ip)
    && a.entry.details == b.entry.details
    && Utc(a.entry.occurredAt) == Utc(b.entry.occurredAt)
  }

  predicate SameRow(a: LogRow, b: LogRow) {
    SameHashedFields(a, b) && a.prevHash == b.prevHash && a.hash == b.hash
  }

  lemma SerializationBinds(env: Env, a: LogRow, b: LogRow)
    requires EnvOk(env)
    requires SerializeForChain(env, a.sequenceNo, a.entry) == SerializeForChain(env, b.sequenceNo, b.entry)
    ensures SameHashedFields(a, b)
  {
    var v, w := Payload(env, a.sequenceNo, a.entry), Payload(env, b.sequenceNo, b.entry);
    AsciiBytesInjective(Write(v), Write(w));
    WriteInjective(v, w);
  }

  /** Two messages with 32-byte previous hashes agree exactly when their parts do. */
  lemma MessageBinds(env: Env, a: LogRow, b: LogRow)
    requires EnvOk(env)
    requires |a.prevHash| == HASH_SIZE && |b.prevHash| == HASH_SIZE
    requires Message(env, a) == Message(env, b)
    ensures a.prevHash == b.prevHash && SameHashedFields(a, b)
  {
    var m, n := Message(env, a), Message(env, b);
    assert a.prevHash == m[..HASH_SIZE] && b.prevHash == n[..HASH_SIZE];
    assert SerializeForChain(env, a.sequenceNo, a.entry) == m[HASH_SIZE..];
    assert SerializeForChain(env, b.sequenceNo, b.entry) == n[HASH_SIZE..];
    SerializationBinds(env, a, b);
  }

  ghost predicate Collide(env: Env, a: LogRow, b: LogRow) {
    Message(env, a) != Message(env, b) && env.mac(Message(env, a)) == env.mac(Message(env, b))
  }

  /** Two verified logs of equal length that end in the same hash agree on every hashed field, every
      previous hash and every hash, unless two of their messages at the same position collide. */
  lemma {:induction false} ChainBinds(env: Env, a: seq<LogRow>, b: seq<LogRow>)
    requires EnvOk(env)
    requires |a| == |b| > 0
    requires ChainOk(env, a) && ChainOk(env, b)
    requires |a[0].prevHash| == HASH_SIZE && |b[0].prevHash| == HASH_SIZE
    requires a[|a| - 1].hash == b[|b| - 1].hash
    requires forall i | 0 <= i < |a| :: !Collide(env, a[i], b[i])
    ensures forall i | 0 <= i < |a| :: SameRow(a[i], b[i])
  {
    forall i | 0 <= i < |a|
      ensures SameRow(a[i], b[i])
    {
      ChainBindsAt(env, a, b, i);
    }
  }

  /** From the last row backwards: each row's previous hash fixes the hash of the row before it. */
  lemma {:induction false} ChainBindsAt(env: Env, a: seq<LogRow>, b: seq<LogRow>, i: nat)
    requires EnvOk(env)
    requires i < |a| == |b|
    requires ChainOk(env, a) && ChainOk(env, b)
    requires |a[0].prevHash| == HASH_SIZE && |b[0].prevHash| == HASH_SIZE
    requires a[|a| - 1].hash == b[|b| - 1].hash
    requires forall j | 0 <= j < |a| :: !Collide(env, a[j], b[j])
    ensures SameRow(a[i], b[i])
    decreases |a| - i
  {
    if i < |a| - 1 {
      ChainBindsAt(env, a, b, i + 1);
    }
    PrevHashSize(env, a, i);
    PrevHashSize(env, b, i);
    RowBinds(env, a[i], b[i]);
  }

  lemma RowBinds(env: Env, a: LogRow, b: LogRow)
    requires EnvOk(env)
    requires |a.prevHash| == HASH_SIZE && |b.prevHash| == HASH_SIZE
    requires HashOk(env, a) && HashOk(env, b) && a.hash == b.hash && !Collide(env, a, b)
    ensures SameRow(a, b)
  {
    MessageBinds(env, a, b);
  }

  lemma PrevHashSize(env: Env, log: seq<LogRow>, i: nat)
    requires EnvOk(env) && ChainOk(env, log) && i < |log| && |log[0].prevHash| == HASH_SIZE
    ensures |log[i].prevHash| == HASH_SIZE
  {
    if i > 0 {
      assert HashOk(env, log[i - 1]);
    }
  }

  /** Without collisions among its own messages, a sound log has pairwise distinct hashes, because every
      message carries its sequence number; so RangeVerifiesIffContiguous applies to it. */
  lemma SoundLogHasDistinctHashes(env: Env, log: seq<LogRow>)
    requires EnvOk(env) && ChainOk(env, log)
    requires log != [] ==> |log[0].prevHash| == HASH_SIZE
    requires forall i, j | 0 <= i < j < |log| :: log[i].sequenceNo != log[j].sequenceNo
    requires forall i, j | 0 <= i < j < |log| :: !Collide(env, log[i], log[j])
    ensures DistinctHashes(log)
  {
    forall i, j | 0 <= i < j < |log|
      ensures log[i].hash != log[j].hash
    {
      assert HashOk(env, log[i]) && HashOk(env, log[j]);
      PrevHashSize(env, log, i);
      PrevHashSize(env, log, j);
      assert !Collide(env, log[i], log[j]);
      if log[i].hash == log[j].hash {
        MessageBinds(env, log[i], log[j]);
      }
    }
  }

  // ------------------------------------------------------------------ recorded logs

  /** What is recorded: an entry up to UTC and the empty address. */
  predicate SameCall(a: (int, Entry), b: (int, Entry)) {
    SameHashedFields(LogRow(a.0, a.1, [], []), LogRow(b.0, b.1, [], []))
  }

  /** Two series of record calls, of equal number and ending in the same hash, recorded the same entries in the same
      order, unless two of their messages collide. */
  lemma RecordedBinds(env: Env, a: seq<(int, Entry)>, b: seq<(int, Entry)>)
    requires EnvOk(env) && |a| == |b| > 0
    requires Recorded(env, a)[|a| - 1].hash == Recorded(env, b)[|b| - 1].hash
    requires forall i | 0 <= i < |a| :: !Collide(env, Recorded(env, a)[i], Recorded(env, b)[i])
    ensures forall i | 0 <= i < |a| :: SameCall(a[i], b[i])
  {
    RecordedVerifies(env, a);
    RecordedVerifies(env, b);
    RecordedStartsWithZeros(env, a);
    RecordedStartsWithZeros(env, b);
    ChainBinds(env, Recorded(env, a), Recorded(env, b));
    assert forall i | 0 <= i < |a| :: SameRow(Recorded(env, a)[i], Recorded(env, b)[i]);
  }

  /** A stored log that verifies, starts like a recorded one, and ends in its hash holds what was recorded. */
  lemma VerifiedIsRecorded(env: Env, calls: seq<(int, Entry)>, log: seq<LogRow>)
    requires EnvOk(env) && |log| == |calls| > 0 && ChainOk(env, log) && |log[0].prevHash| == 32
    requires log[|log| - 1].hash == Recorded(env, calls)[|calls| - 1].hash
    requires forall i | 0 <= i < |log| :: !Collide(env, log[i], Recorded(env, calls)[i])
    ensures forall i | 0 <= i < |log| :: SameCall((log[i].sequenceNo, log[i].entry), calls[i])
  {
    RecordedVerifies(env, calls);
    RecordedStartsWithZeros(env, calls);
    ChainBinds(env, log, Recorded(env, calls));
    assert forall i | 0 <= i < |log| :: SameRow(log[i], Recorded(env, calls)[i]);
  }

  /** Recorded under distinct sequence numbers, a log has distinct hashes, unless its messages collide. */
  lemma RecordedHasDistinctHashes(env: Env, calls: seq<(int, Entry)>)
    requires EnvOk(env) && forall i, j | 0 <= i < j < |calls| :: calls[i].0 != calls[j].0
    requires forall i, j | 0 <= i < j < |calls| :: !Collide(env, Recorded(env, calls)[i], Recorded(env, calls)[j])
    ensures DistinctHashes(Recorded(env, calls))
  {
    RecordedVerifies(env, calls);
    if calls != [] {
      RecordedStartsWithZeros(env, calls);
    }
    SoundLogHasDistinctHashes(env, Recorded(env, calls));
  }
}
