/** The settings endpoints of api/apps/api/setting.py: reading the Settings row
    and overwriting it with a payload, both creating the default row first
    when there is none. */
module SettingsApi {
  import opened Wrappers
  import opened Models

  /** One item of payload.dict().items(): a field of the settings schema, which
      is every Settings column except id, in declaration order. */
  datatype Field =
    | OpenaiApiKey(key: Option<string>)
    | AnthropicApiKey(key: Option<string>)
    | MaxVideoHeight(height: int)
    | UseHeAacV2(flag: bool)

  function Items(p: SettingsRecord): seq<Field> {
    [OpenaiApiKey(p.openaiApiKey), AnthropicApiKey(p.anthropicApiKey),
     MaxVideoHeight(p.maxVideoHeight), UseHeAacV2(p.useHeAacV2)]
  }

  /** setattr(settings, attr, value) */
  function SetAttr(r: SettingsRecord, f: Field): SettingsRecord {
    match f
    case OpenaiApiKey(k) => r.(openaiApiKey := k)
    case AnthropicApiKey(k) => r.(anthropicApiKey := k)
    case MaxVideoHeight(h) => r.(maxVideoHeight := h)
    case UseHeAacV2(b) => r.(useHeAacV2 := b)
  }

  /** The record after setting the fields in order. */
  function SetAll(r: SettingsRecord, fs: seq<Field>): SettingsRecord
    decreases |fs|
  {
    if fs == [] then r else SetAttr(SetAll(r, fs[..|fs| - 1]), fs[|fs| - 1])
  }

  /** Setting every item of a payload makes the record equal to the payload,
      whatever it held before. */
  lemma {:induction false} SetAllItems(r: SettingsRecord, p: SettingsRecord)
    ensures SetAll(r, Items(p)) == p
  {
    var fs := Items(p);
    var r0 := SetAll(r, fs[..0]);
    assert fs[..1][..0] == fs[..0] == [];
    var r1 := SetAll(r, fs[..1]);
    assert r1 == SetAttr(r0, fs[0]);
    assert fs[..2][..1] == fs[..1];
    var r2 := SetAll(r, fs[..2]);
    assert r2 == SetAttr(r1, fs[1]);
    assert fs[..3][..2] == fs[..2];
    var r3 := SetAll(r, fs[..3]);
    assert r3 == SetAttr(r2, fs[2]);
    assert fs[..4][..3] == fs[..3];
    assert fs[..4] == fs;
    assert SetAll(r, fs) == SetAttr(r3, fs[3]);
  }

  /** Settings.objects.first(), or a new default row when there is none. */
  method FirstOrCreate(db: Database) returns (row: SettingsRow)
    requires db.Valid()
    modifies db
    ensures db.Valid()
    ensures db.videos == old(db.videos) && db.subtitles == old(db.subtitles)
    ensures db.settings == Some(row)
    ensures old(db.settings).Some? ==> db.settings == old(db.settings)
    ensures old(db.settings).None? ==> row.record == DEFAULT_SETTINGS
  {
    if db.settings.Some? {
      return db.settings.value;
    }
    var r := db.SaveSettings(None, DEFAULT_SETTINGS);
    row := SettingsRow(r.value, DEFAULT_SETTINGS);
  }

  /** get_settings: the existing row unchanged, or a new default row. */
  method GetSettings(db: Database) returns (rec: SettingsRecord)
    requires db.Valid()
    modifies db
    ensures db.Valid()
    ensures db.videos == old(db.videos) && db.subtitles == old(db.subtitles)
    ensures db.FirstSettings() == Some(rec)
    ensures old(db.settings).Some? ==> db.settings == old(db.settings) && rec == old(db.settings).value.record
    ensures old(db.settings).None? ==> rec == DEFAULT_SETTINGS
  {
    var row := FirstOrCreate(db);
    rec := row.record;
  }

  /** update_settings: every payload field is written to the single row, which
      is then saved; afterwards the row holds exactly the payload.  An existing
      row keeps its id, so no second row appears. */
  method UpdateSettings(db: Database, payload: SettingsRecord) returns (rec: SettingsRecord)
    requires db.Valid()
    modifies db
    ensures db.Valid()
    ensures db.videos == old(db.videos) && db.subtitles == old(db.subtitles)
    ensures rec == payload && db.FirstSettings() == Some(payload)
    ensures old(db.settings).Some? ==> db.settings == Some(SettingsRow(old(db.settings).value.id, payload))
  {
    var row := FirstOrCreate(db);
    var current := row.record;
    var items := Items(payload);
    for i := 0 to |items|
      invariant current == SetAll(row.record, items[..i])
    {
      assert items[..i + 1][..i] == items[..i];
      current := SetAttr(current, items[i]);
    }
    SetAllItems(row.record, payload);
    assert items[..|items|] == items;
    var r := db.SaveSettings(Some(row.id), current);
    rec := current;
  }
}
