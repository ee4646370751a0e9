/**
 * The `ayarlar` settings table (models/Setting.js): rows keyed by a unique `anahtar`, a
 * typed reader `getValue` and a find-or-create writer `setValue`.
 *
 * JSON is not modelled as text: `JSON.parse` and `JSON.stringify` are parameters
 * (`parse`, `stringify`). A setting's stored text is `Option<string>`, `None` for SQL NULL.
 */
module Settings {
  import opened Wrappers
  import Seqs

  /** The `tip` ENUM (models/Setting.js:23-25). */
  datatype Kind = Text | Textarea | Number | Boolean | Json

  const DefaultGroup := "genel"

  /** One row: `anahtar`, `deger`, `grup`, `tip`, `aciklama`. */
  datatype Setting = Setting(key: string, value: Option<string>, group: string, kind: Kind,
                             description: Option<string>)

  /**
   * What `getValue` hands back. `NumberOf` carries the stored text that `parseFloat`
   * would read; `Json` a parsed value.
   */
  datatype Value<J> = Null | TextValue(text: string) | BoolValue(b: bool)
                    | NumberOf(stored: Option<string>) | JsonValue(json: J)

  /** What a caller can pass to `setValue`: `null`, a string, or an object. */
  datatype Input<J> = NullInput | TextInput(text: string) | ObjectInput(obj: J)

  /** The unique index on `anahtar` (models/Setting.js:10-14). */
  ghost predicate KeysUnique(rows: seq<Setting>)
  {
    forall i, j :: 0 <= i < j < |rows| ==> rows[i].key != rows[j].key
  }

  /** `findOne({ where: { anahtar } })`: the row's index, or -1. */
  function KeyIndex(rows: seq<Setting>, key: string): (i: int)
    ensures -1 <= i < |rows|
    ensures i >= 0 ==> rows[i].key == key
    ensures i == -1 <==> forall j :: 0 <= j < |rows| ==> rows[j].key != key
  {
    Seqs.FirstIndex(rows, (s: Setting) => s.key == key)
  }

  function Lookup(rows: seq<Setting>, key: string): (r: Option<Setting>)
    ensures r.Some? ==> r.value in rows && r.value.key == key
    ensures r.None? <==> forall s :: s in rows ==> s.key != key
  {
    var i := KeyIndex(rows, key);
    if i < 0 then None else Some(rows[i])
  }

  /** Under the unique index a row with the key is the one `findOne` returns. */
  lemma LookupUnique(rows: seq<Setting>, i: int)
    requires KeysUnique(rows) && 0 <= i < |rows|
    ensures Lookup(rows, rows[i].key) == Some(rows[i])
  {
    var k := KeyIndex(rows, rows[i].key);
    assert k >= 0;
  }

  /** `JSON.parse(null)` reads the text "null". */
  function JsonText(value: Option<string>): string
  {
    match value
    case None => "null"
    case Some(s) => s
  }

  /** The decoding of one found row (models/Setting.js:42-55). */
  function Decode<J>(row: Setting, default: Value<J>, parse: string -> Option<J>): (v: Value<J>)
    ensures row.kind == Boolean ==> v == BoolValue(row.value == Some("1") || row.value == Some("true"))
    ensures row.kind == Number ==> v == NumberOf(row.value)
    ensures row.kind == Json ==>
      (parse(JsonText(row.value)).None? ==> v == default)
      && (parse(JsonText(row.value)).Some? ==> v == JsonValue(parse(JsonText(row.value)).value))
    ensures row.kind in {Text, Textarea} ==>
      (row.value.None? ==> v == Null) && (row.value.Some? ==> v == TextValue(row.value.value))
  {
    match row.kind
    case Boolean => BoolValue(row.value == Some("1") || row.value == Some("true"))
    case Number => NumberOf(row.value)
    case Json =>
      (match parse(JsonText(row.value))
       case None => default
       case Some(j) => JsonValue(j))
    case _ =>
      (match row.value
       case None => Null
       case Some(s) => TextValue(s))
  }

  /** `Setting.getValue(anahtar, varsayilan)` (models/Setting.js:38-56). */
  function GetValue<J>(rows: seq<Setting>, key: string, default: Value<J>,
                       parse: string -> Option<J>): (v: Value<J>)
    ensures (forall s :: s in rows ==> s.key != key) ==> v == default
  {
    match Lookup(rows, key)
    case None => default
    case Some(row) => Decode(row, default, parse)
  }

  /** The `deger` written over an existing row: objects, and `null` too, go through `JSON.stringify`. */
  function Rewritten<J>(input: Input<J>, stringify: J -> string): Option<string>
  {
    match input
    case NullInput => Some("null")
    case TextInput(s) => Some(s)
    case ObjectInput(o) => Some(stringify(o))
  }

  /**
   * The `deger` of a created row: the value exactly as given, never stringified. An object
   * never gets here: Sequelize refuses it in the TEXT column as a string violation.
   */
  function Initial<J>(input: Input<J>): Option<string>
    requires !input.ObjectInput?
  {
    match input
    case NullInput => None
    case TextInput(s) => Some(s)
  }

  datatype Upsert = Upsert(rows: seq<Setting>, record: Setting)

  /**
   * `Setting.setValue(anahtar, deger, grup)` (models/Setting.js:59-71): a found row gets
   * only the new `deger`; otherwise a row with the key, the value, the group and the
   * column defaults is appended. `None` is the rejected promise: `findOrCreate` builds the
   * new row from `deger` as given, and validation refuses an object in the TEXT column.
   */
  function SetValueSpec<J>(rows: seq<Setting>, key: string, input: Input<J>, group: Option<string>,
                           stringify: J -> string): (u: Option<Upsert>)
    ensures u.None? <==> KeyIndex(rows, key) < 0 && input.ObjectInput?
    ensures u.Some? ==> u.value.record.key == key
    ensures u.Some? && 0 <= KeyIndex(rows, key) ==>
      |u.value.rows| == |rows| && u.value.rows[KeyIndex(rows, key)] == u.value.record
    ensures u.Some? && KeyIndex(rows, key) < 0 ==> u.value.rows == rows + [u.value.record]
  {
    var i := KeyIndex(rows, key);
    if i >= 0 then
      var r := rows[i].(value := Rewritten(input, stringify));
      Some(Upsert(rows[i := r], r))
    else if input.ObjectInput? then None
    else
      var r := Setting(key, Initial(input), group.GetOr(DefaultGroup), Text, None);
      Some(Upsert(rows + [r], r))
  }

  /** The unique index survives `setValue`, and the key then has exactly one row, the returned one. */
  lemma SetValueOneRowPerKey<J>(rows: seq<Setting>, key: string, input: Input<J>, group: Option<string>,
                                stringify: J -> string)
    requires KeysUnique(rows)
    ensures var u := SetValueSpec(rows, key, input, group, stringify);
      u.Some? ==> KeysUnique(u.value.rows)
    ensures var u := SetValueSpec(rows, key, input, group, stringify);
      u.Some? ==> forall j :: 0 <= j < |u.value.rows| && u.value.rows[j].key == key ==> u.value.rows[j] == u.value.record
  {
    var u := SetValueSpec(rows, key, input, group, stringify);
    if u.Some? {
      var i := KeyIndex(rows, key);
      forall j | 0 <= j < |u.value.rows| && u.value.rows[j].key == key
        ensures u.value.rows[j] == u.value.record
      {
      }
    }
  }

  /** Every other key reads back the row it had. */
  lemma SetValueKeepsOtherKeys<J>(rows: seq<Setting>, key: string, input: Input<J>, group: Option<string>,
                                  stringify: J -> string, other: string)
    requires other != key
    ensures var u := SetValueSpec(rows, key, input, group, stringify);
      u.Some? ==> Lookup(u.value.rows, other) == Lookup(rows, other)
  {
    var u := SetValueSpec(rows, key, input, group, stringify);
    if u.Some? {
      var nr := u.value.rows;
      var i := KeyIndex(rows, key);
      var k := KeyIndex(rows, other);
      var k' := KeyIndex(nr, other);
      if i >= 0 {
        assert forall j :: 0 <= j < |rows| ==> (nr[j].key == other <==> rows[j].key == other);
        assert k' == k;
        if k >= 0 { assert k != i; }
      } else {
        assert forall j :: 0 <= j < |rows| ==> nr[j] == rows[j];
        assert nr[|rows|].key != other;
        assert k' == k;
      }
    }
  }

  /** On a found row only `deger` changes: key, group, type and description stay. */
  lemma SetValueExistingChangesOnlyValue<J>(rows: seq<Setting>, key: string, input: Input<J>,
                                            group: Option<string>, stringify: J -> string, old_: Setting)
    requires Lookup(rows, key) == Some(old_)
    ensures var u := SetValueSpec(rows, key, input, group, stringify);
      u.Some? && u.value.record == old_.(value := Rewritten(input, stringify))
  {
  }

  /**
   * A new key given `null` or a string gets that value as given, the group ("genel" by
   * default), type text and no description; given an object, nothing is created.
   */
  lemma SetValueCreates<J>(rows: seq<Setting>, key: string, input: Input<J>, group: Option<string>,
                           stringify: J -> string)
    requires Lookup(rows, key).None?
    ensures var u := SetValueSpec(rows, key, input, group, stringify);
      && (u.Some? <==> !input.ObjectInput?)
      && (u.Some? ==>
            && u.value.record.value == (if input.TextInput? then Some(input.text) else None)
            && u.value.record.group == (if group.Some? then group.value else DefaultGroup)
            && u.value.record.kind == Text && u.value.record.description == None)
  {
  }

  /**
   * An object is stringified on update (models/Setting.js:66) but handed to `findOrCreate`
   * unchanged on creation (models/Setting.js:62), where the TEXT column refuses it.
   */
  lemma ObjectStringifiedOnlyOnUpdate<J>(rows: seq<Setting>, key: string, o: J, group: Option<string>,
                                         stringify: J -> string)
    ensures var u := SetValueSpec(rows, key, ObjectInput(o), group, stringify);
      && (u.Some? <==> Lookup(rows, key).Some?)
      && (u.Some? ==> u.value.record.value == Some(stringify(o)))
  {
  }

  /** A text written to a text or textarea setting, or to a new key, reads back verbatim. */
  lemma {:induction false} TextRoundTrip<J>(rows: seq<Setting>, key: string, s: string, group: Option<string>,
                                            stringify: J -> string, default: Value<J>, parse: string -> Option<J>)
    requires KeysUnique(rows)
    requires Lookup(rows, key).Some? ==> Lookup(rows, key).value.kind in {Text, Textarea}
    ensures var u := SetValueSpec(rows, key, TextInput(s), group, stringify);
      u.Some? && GetValue(u.value.rows, key, default, parse) == TextValue(s)
  {
    ReadBack(rows, key, TextInput(s), group, stringify);
  }

  /** A boolean setting set to "true" or "false" reads back as that boolean. */
  lemma {:induction false} BooleanRoundTrip<J>(rows: seq<Setting>, key: string, b: bool, group: Option<string>,
                                               stringify: J -> string, default: Value<J>, parse: string -> Option<J>)
    requires KeysUnique(rows)
    requires Lookup(rows, key).Some? && Lookup(rows, key).value.kind == Boolean
    ensures var u := SetValueSpec(rows, key, TextInput(if b then "true" else "false"), group, stringify);
      u.Some? && GetValue(u.value.rows, key, default, parse) == BoolValue(b)
  {
    ReadBack(rows, key, TextInput(if b then "true" else "false"), group, stringify);
  }

  /** An object written to an existing json setting reads back, when parsing undoes stringifying. */
  lemma {:induction false} JsonRoundTrip<J>(rows: seq<Setting>, key: string, o: J, group: Option<string>,
                                            stringify: J -> string, default: Value<J>, parse: string -> Option<J>)
    requires KeysUnique(rows)
    requires Lookup(rows, key).Some? && Lookup(rows, key).value.kind == Json
    requires parse(stringify(o)) == Some(o)
    ensures var u := SetValueSpec(rows, key, ObjectInput(o), group, stringify);
      u.Some? && GetValue(u.value.rows, key, default, parse) == JsonValue(o)
  {
    ReadBack(rows, key, ObjectInput(o), group, stringify);
  }

  /**
   * A new key is created as a text setting, so even JSON text stored under it reads back
   * as that text, never parsed, while the same text under a json key would be parsed.
   */
  lemma {:induction false} NewKeyReadsAsText<J>(rows: seq<Setting>, key: string, o: J, group: Option<string>,
                                                stringify: J -> string, default: Value<J>, parse: string -> Option<J>)
    requires KeysUnique(rows)
    requires Lookup(rows, key).None?
    ensures var u := SetValueSpec(rows, key, TextInput(stringify(o)), group, stringify);
      u.Some? && u.value.record.kind == Text
      && GetValue(u.value.rows, key, default, parse) == TextValue(stringify(o))
  {
    ReadBack(rows, key, TextInput(stringify(o)), group, stringify);
  }

  /** Writing `null` over an existing text setting stores the text "null", which reads back as text. */
  lemma {:induction false} NullOverwriteReadsAsText<J>(rows: seq<Setting>, key: string, group: Option<string>,
                                                       stringify: J -> string, default: Value<J>, parse: string -> Option<J>)
    requires KeysUnique(rows)
    requires Lookup(rows, key).Some? && Lookup(rows, key).value.kind == Text
    ensures var u := SetValueSpec(rows, key, NullInput, group, stringify);
      u.Some? && GetValue(u.value.rows, key, default, parse) == TextValue("null")
  {
    ReadBack(rows, key, NullInput, group, stringify);
  }

  /** After a `setValue` that succeeds the key finds the returned row. */
  lemma ReadBack<J>(rows: seq<Setting>, key: string, input: Input<J>, group: Option<string>,
                    stringify: J -> string)
    requires KeysUnique(rows)
    ensures var u := SetValueSpec(rows, key, input, group, stringify);
      u.Some? ==> Lookup(u.value.rows, key) == Some(u.value.record)
  {
    var u := SetValueSpec(rows, key, input, group, stringify);
    if u.Some? {
      SetValueOneRowPerKey(rows, key, input, group, stringify);
      var i := if KeyIndex(rows, key) >= 0 then KeyIndex(rows, key) else |rows|;
      assert u.value.rows[i] == u.value.record;
      LookupUnique(u.value.rows, i);
    }
  }

  /** The `ayarlar` table as the model keeps it: rows under the unique key index. */
  class SettingsTable {
    var rows: seq<Setting>

    ghost predicate Valid()
      reads this
    {
      KeysUnique(rows)
    }

    constructor ()
      ensures Valid() && rows == []
    {
      rows := [];
    }

    /** `findOne` as a scan. */
    static method Find(rows: seq<Setting>, key: string) returns (i: int)
      ensures i == KeyIndex(rows, key)
    {
      i := 0;
      while i < |rows| && rows[i].key != key
        invariant 0 <= i <= |rows|
        invariant forall j :: 0 <= j < i ==> rows[j].key != key
      {
        i := i + 1;
      }
      if i == |rows| {
        i := -1;
      }
    }

    /**
     * `Setting.setValue`: find or create the row, then update `deger` on a found one.
     * `None` is the rejected creation, which leaves the table as it was.
     */
    method SetValue<J>(key: string, input: Input<J>, group: Option<string>,
                       stringify: J -> string) returns (record: Option<Setting>)
      requires Valid()
      modifies this
      ensures Valid()
      ensures SetValueSpec(old(rows), key, input, group, stringify).None? ==> rows == old(rows) && record.None?
      ensures SetValueSpec(old(rows), key, input, group, stringify).Some? ==>
        rows == SetValueSpec(old(rows), key, input, group, stringify).value.rows
        && record == Some(SetValueSpec(old(rows), key, input, group, stringify).value.record)
    {
      SetValueOneRowPerKey(rows, key, input, group, stringify);
      var i := Find(rows, key);
      if i >= 0 {
        var r := rows[i].(value := Rewritten(input, stringify));
        rows := rows[i := r];
        record := Some(r);
      } else if input.ObjectInput? {
        record := None;
      } else {
        var r := Setting(key, Initial(input), group.GetOr(DefaultGroup), Text, None);
        rows := rows + [r];
        record := Some(r);
      }
    }

    /** `Setting.getValue` on the current rows. */
    method GetValueOf<J>(key: string, default: Value<J>, parse: string -> Option<J>) returns (v: Value<J>)
      ensures v == GetValue(rows, key, default, parse)
    {
      var i := Find(rows, key);
      if i < 0 {
        v := default;
      } else {
        v := Decode(rows[i], default, parse);
      }
    }
  }
}
