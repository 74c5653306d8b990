/** Advertising data: the length-type-value records walked by the scanner to find a mesh frame or a
    vest's name (Bluetooth Core Specification, Volume 3, Part C, section 11). */
module AdRecords {
  import opened Bytes

  const MANUFACTURER_DATA: byte := 0xFF
  const NAME_SHORTENED: byte := 0x08
  const NAME_COMPLETE: byte := 0x09
  /** "LT-V-" */
  const VEST_PREFIX: seq<byte> := [0x4C, 0x54, 0x2D, 0x56, 0x2D]

  datatype Record = Record(adType: byte, payload: seq<byte>)

  // ----- meaning -----

  predicate RecordAt(d: seq<byte>, pos: nat) {
    pos + 1 < |d| && d[pos] != 0 && pos + 1 + d[pos] <= |d|
  }

  /** The records from `pos` on, up to the first that is malformed, cut off or empty. */
  function Parse(d: seq<byte>, pos: nat): seq<Record>
    decreases |d| - pos
  {
    if !RecordAt(d, pos) then []
    else [Record(d[pos + 1], d[pos + 2..pos + 1 + d[pos]])] + Parse(d, pos + d[pos] + 1)
  }

  /** The payload of the first manufacturer record. */
  function ManufacturerData(records: seq<Record>): Option<seq<byte>> {
    if |records| == 0 then None
    else if records[0].adType == MANUFACTURER_DATA then Some(records[0].payload)
    else ManufacturerData(records[1..])
  }

  predicate NamesVest(r: Record) {
    (r.adType == NAME_COMPLETE || r.adType == NAME_SHORTENED) && VEST_PREFIX <= r.payload
  }

  predicate FitsRecord(r: Record) { |r.payload| <= 254 }

  function EncodeRecord(r: Record): (row: seq<byte>)
    requires FitsRecord(r)
    ensures |row| == |r.payload| + 2
  {
    [|r.payload| + 1, r.adType] + r.payload
  }

  function Encode(records: seq<Record>): seq<byte>
    requires forall i :: 0 <= i < |records| ==> FitsRecord(records[i])
  {
    if |records| == 0 then []
    else EncodeRecord(records[0]) + Encode(records[1..])
  }

  // The record `r` is written at `pos`.
  predicate Written(d: seq<byte>, pos: nat, r: Record) {
    && FitsRecord(r) && pos + 2 + |r.payload| <= |d|
    && d[pos] == |r.payload| + 1 && d[pos + 1] == r.adType && d[pos + 2..pos + 2 + |r.payload|] == r.payload
  }

  // The records are written from `pos` on, and nothing after them reads as a record.
  predicate AllWritten(d: seq<byte>, pos: nat, records: seq<Record>)
    decreases |records|
  {
    if |records| == 0 then !RecordAt(d, pos)
    else Written(d, pos, records[0]) && AllWritten(d, pos + 2 + |records[0].payload|, records[1..])
  }

  lemma {:induction false} ParseWritten(d: seq<byte>, pos: nat, records: seq<Record>)
    requires AllWritten(d, pos, records)
    ensures Parse(d, pos) == records
    decreases |records|
  {
    if |records| > 0 {
      ParseWritten(d, pos + 2 + |records[0].payload|, records[1..]);
    }
  }

  lemma Regroup(a: seq<byte>, b: seq<byte>, c: seq<byte>)
    ensures a + (b + c) == a + b + c
  {
  }

  lemma CutRow(d: seq<byte>, pos: nat, row: seq<byte>, tail: seq<byte>)
    requires pos <= |d| && d[pos..] == row + tail
    ensures pos + |row| <= |d| && d[pos..pos + |row|] == row && d[pos + |row|..] == tail
  {
    assert |d| - pos == |row| + |tail|;
    assert d[pos..pos + |row|] == d[pos..][..|row|];
    assert d[pos + |row|..] == d[pos..][|row|..];
  }

  lemma RowWritten(d: seq<byte>, pos: nat, r: Record)
    requires FitsRecord(r) && pos + |r.payload| + 2 <= |d|
    requires d[pos..pos + |r.payload| + 2] == EncodeRecord(r)
    ensures Written(d, pos, r)
  {
    var row := EncodeRecord(r);
    assert d[pos] == row[0] && d[pos + 1] == row[1];
    assert d[pos + 2..pos + 2 + |r.payload|] == d[pos..pos + |r.payload| + 2][2..] == r.payload;
  }

  lemma {:induction false} EncodeWrites(d: seq<byte>, pos: nat, records: seq<Record>, after: seq<byte>)
    requires forall i :: 0 <= i < |records| ==> FitsRecord(records[i])
    requires pos <= |d| && d[pos..] == Encode(records) + after && !RecordAt(d, |d| - |after|)
    ensures AllWritten(d, pos, records)
    decreases |records|
  {
    if |records| > 0 {
      var row, rest := EncodeRecord(records[0]), Encode(records[1..]);
      Regroup(row, rest, after);
      CutRow(d, pos, row, rest + after);
      RowWritten(d, pos, records[0]);
      EncodeWrites(d, pos + |row|, records[1..], after);
    }
  }

  /** Whatever was encoded is parsed back, wherever it starts. */
  lemma ParseEncode(before: seq<byte>, records: seq<Record>, after: seq<byte>)
    requires forall i :: 0 <= i < |records| ==> FitsRecord(records[i])
    requires !RecordAt(before + Encode(records) + after, |before| + |Encode(records)|)
    ensures Parse(before + Encode(records) + after, |before|) == records
  {
    var d := before + Encode(records) + after;
    Regroup(before, Encode(records), after);
    assert d[|before|..] == Encode(records) + after;
    EncodeWrites(d, |before|, records, after);
    ParseWritten(d, |before|, records);
  }

  /** A mesh frame put into an advertisement is what the scanner takes out of it, if it has at most
      254 bytes. */
  lemma FrameThroughAdvertisement(frame: seq<byte>)
    requires |frame| <= 254
    ensures ManufacturerData(Parse(Encode([Record(MANUFACTURER_DATA, frame)]), 0)) == Some(frame)
  {
    var records := [Record(MANUFACTURER_DATA, frame)];
    var d := [] + Encode(records) + [];
    assert d == Encode(records);
    ParseEncode([], records, []);
  }

  /** No advertisement whatsoever holds a record of more than 254 bytes. */
  lemma {:induction false} RecordsAreShort(d: seq<byte>, pos: nat)
    ensures forall i :: 0 <= i < |Parse(d, pos)| ==> FitsRecord(Parse(d, pos)[i])
    decreases |d| - pos
  {
    if RecordAt(d, pos) {
      RecordsAreShort(d, pos + d[pos] + 1);
    }
  }

  lemma {:induction false} ManufacturerDataIsShort(records: seq<Record>)
    requires forall i :: 0 <= i < |records| ==> FitsRecord(records[i])
    ensures ManufacturerData(records).Some? ==> |ManufacturerData(records).value| <= 254
  {
    if |records| > 0 && records[0].adType != MANUFACTURER_DATA {
      ManufacturerDataIsShort(records[1..]);
    }
  }

  // ----- the loops -----

  method FindManufacturerData(d: seq<byte>) returns (out: Option<seq<byte>>)
    ensures out == ManufacturerData(Parse(d, 0))
  {
    var pos: nat := 0;
    while pos + 1 < |d|
      invariant ManufacturerData(Parse(d, pos)) == ManufacturerData(Parse(d, 0))
      decreases |d| - pos
    {
      var adLen := d[pos];
      if adLen == 0 || pos + 1 + adLen > |d| {
        return None;
      }
      FirstRecord(d, pos);
      if d[pos + 1] == MANUFACTURER_DATA && adLen >= 1 {
        return Some(d[pos + 2..pos + 1 + adLen]);
      }
      pos := pos + adLen + 1;
    }
    return None;
  }

  lemma FirstRecord(d: seq<byte>, pos: nat)
    requires RecordAt(d, pos)
    ensures var r := Record(d[pos + 1], d[pos + 2..pos + 1 + d[pos]]);
            && Parse(d, pos) == [r] + Parse(d, pos + d[pos] + 1)
            && Parse(d, pos)[0] == r && Parse(d, pos)[1..] == Parse(d, pos + d[pos] + 1)
  {
  }

  predicate AnyVest(records: seq<Record>) {
    |records| > 0 && (NamesVest(records[0]) || AnyVest(records[1..]))
  }

  lemma {:induction false} AnyVestMeansSome(records: seq<Record>)
    ensures AnyVest(records) <==> exists i :: 0 <= i < |records| && NamesVest(records[i])
  {
    if |records| > 0 {
      AnyVestMeansSome(records[1..]);
      if i :| 0 <= i < |records| && NamesVest(records[i]) {
        assert i > 0 ==> NamesVest(records[1..][i - 1]);
      }
      if j :| 0 <= j < |records[1..]| && NamesVest(records[1..][j]) {
        assert NamesVest(records[j + 1]);
      }
    }
  }

  lemma PrefixOfPayload(d: seq<byte>, pos: nat)
    requires RecordAt(d, pos)
    ensures d[pos] >= 6 ==> d[pos + 2..pos + 1 + d[pos]][..5] == d[pos + 2..pos + 7]
  {
  }

  method FindsVest(d: seq<byte>) returns (found: bool)
    ensures found <==> exists i :: 0 <= i < |Parse(d, 0)| && NamesVest(Parse(d, 0)[i])
  {
    AnyVestMeansSome(Parse(d, 0));
    if |d| < 2 {
      return false;
    }
    var pos: nat := 0;
    while pos + 1 < |d|
      invariant AnyVest(Parse(d, pos)) == AnyVest(Parse(d, 0))
      decreases |d| - pos
    {
      var adLen := d[pos];
      if adLen == 0 || pos + 1 + adLen > |d| {
        return false;
      }
      FirstRecord(d, pos);
      PrefixOfPayload(d, pos);
      var adType := d[pos + 1];
      if (adType == NAME_COMPLETE || adType == NAME_SHORTENED) && adLen >= 6 {
        if d[pos + 2..pos + 7] == VEST_PREFIX {
          return true;
        }
      }
      pos := pos + adLen + 1;
    }
    return false;
  }
}
