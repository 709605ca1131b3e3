/**
 * The collector: turns the gateway's sensor map into spreadsheet rows and
 * builds the append request (fetchAndSaveTemp, index.js:114-161).
 */
module Collector {
  import opened Credentials

  /** The only sensor type that produces rows. */
  const TemperatureType := "ZLLTemperature"

  datatype SensorState = SensorState(lastUpdated: string, temperature: int)

  /** One sensor record of the gateway's response. */
  datatype Sensor = Sensor(sensorType: string, uniqueId: string, state: SensorState)

  /** A spreadsheet cell: a JSON string or a JSON number (kept as an exact real). */
  datatype Cell = Text(text: string) | Number(number: real)

  /** One appended row, a JSON array of cells. */
  type Row = seq<Cell>

  /** The sensor map as `Object.entries` lists it: (index, sensor) pairs in iteration order. */
  type Entries = seq<(string, Sensor)>

  predicate IsTemperatureSensor(s: Sensor) {
    s.sensorType == TemperatureType
  }

  /** `[state.lastupdated, uniqueid, state.temperature, state.temperature / 100]` */
  function RowOf(s: Sensor): (row: Row)
    ensures |row| == 4 && row[0].Text? && row[1].Text? && row[2].Number? && row[3].Number?
    ensures row[0] == Text(s.state.lastUpdated) && row[1] == Text(s.uniqueId)
    ensures row[3].number * 100.0 == row[2].number == s.state.temperature as real
  {
    [Text(s.state.lastUpdated), Text(s.uniqueId),
     Number(s.state.temperature as real), Number(s.state.temperature as real / 100.0)]
  }

  /** Specification of the row-building loop: keep the temperature sensors, map each to its row. */
  function TemperatureRows(entries: Entries): (rows: seq<Row>)
    ensures |rows| <= |entries|
    ensures forall j :: 0 <= j < |rows| ==> |rows[j]| == 4
  {
    if entries == [] then []
    else
      var sensor := entries[0].1;
      (if IsTemperatureSensor(sensor) then [RowOf(sensor)] else []) + TemperatureRows(entries[1..])
  }

  /** The positions of the temperature sensors among the entries, in increasing order. */
  function MatchingIndices(entries: Entries): (idx: seq<nat>)
    ensures forall j :: 0 <= j < |idx| ==> idx[j] < |entries| && IsTemperatureSensor(entries[idx[j]].1)
    ensures forall k :: 0 <= k < |entries| && IsTemperatureSensor(entries[k].1) ==> k in idx
    ensures forall i, j :: 0 <= i < j < |idx| ==> idx[i] < idx[j]
  {
    if entries == [] then []
    else
      var last := |entries| - 1;
      MatchingIndices(entries[..last]) + (if IsTemperatureSensor(entries[last].1) then [last] else [])
  }

  /** Rows of a concatenation are the rows of each part, in order. */
  lemma {:induction false} TemperatureRowsAppend(a: Entries, b: Entries)
    ensures TemperatureRows(a + b) == TemperatureRows(a) + TemperatureRows(b)
  {
    if a == [] {
      assert a + b == b;
    } else {
      assert (a + b)[1..] == a[1..] + b;
      TemperatureRowsAppend(a[1..], b);
    }
  }

  /**
   * Row j is the row of the j-th temperature sensor: exactly one row per
   * matching entry, none for any other entry, in iteration order.
   */
  lemma {:induction false} RowsFollowMatchingEntries(entries: Entries)
    ensures |TemperatureRows(entries)| == |MatchingIndices(entries)|
    ensures forall j :: 0 <= j < |TemperatureRows(entries)| ==>
              TemperatureRows(entries)[j] == RowOf(entries[MatchingIndices(entries)[j]].1)
  {
    if entries != [] {
      var last := |entries| - 1;
      var prefix := entries[..last];
      RowsFollowMatchingEntries(prefix);
      assert entries == prefix + [entries[last]];
      TemperatureRowsAppend(prefix, [entries[last]]);
      assert [entries[last]][1..] == [];
    }
  }

  /** Every row comes from some entry whose type is exactly ZLLTemperature. */
  lemma OnlyTemperatureSensorsContribute(entries: Entries, j: int)
    requires 0 <= j < |TemperatureRows(entries)|
    ensures exists k :: 0 <= k < |entries| && IsTemperatureSensor(entries[k].1) &&
                        TemperatureRows(entries)[j] == RowOf(entries[k].1)
  {
    RowsFollowMatchingEntries(entries);
    var k := MatchingIndices(entries)[j];
    assert TemperatureRows(entries)[j] == RowOf(entries[k].1);
  }

  /** Every entry whose type is exactly ZLLTemperature contributes its row. */
  lemma EveryTemperatureSensorContributes(entries: Entries, k: int)
    requires 0 <= k < |entries| && IsTemperatureSensor(entries[k].1)
    ensures RowOf(entries[k].1) in TemperatureRows(entries)
  {
    RowsFollowMatchingEntries(entries);
    var idx := MatchingIndices(entries);
    var j :| 0 <= j < |idx| && idx[j] == k;
    assert TemperatureRows(entries)[j] == RowOf(entries[k].1);
  }

  /** No rows exactly when no entry is a temperature sensor (in particular for an empty map). */
  lemma NoTemperatureSensorsNoRows(entries: Entries)
    ensures TemperatureRows(entries) == [] <==>
              forall k :: 0 <= k < |entries| ==> !IsTemperatureSensor(entries[k].1)
  {
    RowsFollowMatchingEntries(entries);
    if TemperatureRows(entries) != [] {
      var k := MatchingIndices(entries)[0];
      assert IsTemperatureSensor(entries[k].1);
    } else {
      forall k | 0 <= k < |entries|
        ensures !IsTemperatureSensor(entries[k].1)
      {
        if IsTemperatureSensor(entries[k].1) {
          EveryTemperatureSensorContributes(entries, k);
        }
      }
    }
  }

  /** A reading of 2150 from sensor "AA" becomes the single row ["2020-01-01T00:00:00", "AA", 2150, 21.5]. */
  lemma SingleReadingExample()
    ensures TemperatureRows([("1", Sensor("ZLLTemperature", "AA", SensorState("2020-01-01T00:00:00", 2150)))])
              == [[Text("2020-01-01T00:00:00"), Text("AA"), Number(2150.0), Number(21.5)]]
  {
  }

  /**
   * The request object handed to the spreadsheet append call; `values` is
   * `resource.values`, the only field the row-building loop updates.
   */
  class AppendRequest {
    var spreadsheetId: string
    var range: string
    var insertDataOption: string
    var valueInputOption: string
    var values: seq<Row>
    var auth: Token

    constructor (spreadsheetId: string, range: string, auth: Token)
      ensures this.spreadsheetId == spreadsheetId && this.range == range && this.auth == auth
      ensures insertDataOption == "INSERT_ROWS" && valueInputOption == "USER_ENTERED"
      ensures values == []
    {
      this.spreadsheetId := spreadsheetId;
      this.range := range;
      insertDataOption := "INSERT_ROWS";
      valueInputOption := "USER_ENTERED";
      values := [];
      this.auth := auth;
    }
  }

  /**
   * Builds the append request from the gateway's sensor map, appending one
   * row per temperature sensor in iteration order. The returned request is
   * what is passed to the append call, which is issued even with no rows.
   */
  method FetchAndSaveTemp(spreadsheetId: string, range: string, auth: Token, data: Entries)
    returns (req: AppendRequest)
    ensures fresh(req)
    ensures req.values == TemperatureRows(data)
    ensures req.spreadsheetId == spreadsheetId && req.range == range && req.auth == auth
    ensures req.insertDataOption == "INSERT_ROWS" && req.valueInputOption == "USER_ENTERED"
  {
    req := new AppendRequest(spreadsheetId, range, auth);
    for i := 0 to |data|
      invariant req.values == TemperatureRows(data[..i])
      invariant req.spreadsheetId == spreadsheetId && req.range == range && req.auth == auth
      invariant req.insertDataOption == "INSERT_ROWS" && req.valueInputOption == "USER_ENTERED"
    {
      var (_, sensor) := data[i];
      TemperatureRowsAppend(data[..i], [data[i]]);
      assert data[..i + 1] == data[..i] + [data[i]];
      if sensor.sensorType == TemperatureType {
        req.values := req.values + [RowOf(sensor)];
      }
    }
    assert data[..|data|] == data;
  }
}
