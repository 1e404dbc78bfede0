/** `clean_and_format_data` (cre_extractor.py): the four numeric fields of the
    extracted dictionary are cleaned in place, one after the other, and an
    eleven-column record is built from the cleaned dictionary. */
module Formatting {
  import opened Wrappers
  import opened Cleaners

  /** The extracted dictionary: field name to value. */
  type Fields = map<string, Value>

  /** `d.get(k)`: the value under the key, or None when the key is absent. */
  function Get(d: Fields, k: string): (v: Value)
    ensures k in d ==> v == d[k]
    ensures v != Null ==> k in d
  {
    if k in d then d[k] else Null
  }

  /** The dictionary `dict(pairs)` builds: a later pair for the same key
      replaces an earlier one. `json.loads` builds an object this way, and
      so does a table row built from a record. */
  function PairsToMap(pairs: seq<(string, Value)>): (m: Fields)
    ensures forall k :: k in m <==> exists i :: 0 <= i < |pairs| && pairs[i].0 == k
  {
    if pairs == [] then map[]
    else
      var last := pairs[|pairs| - 1];
      var m := PairsToMap(pairs[..|pairs| - 1]);
      assert forall i :: 0 <= i < |pairs| - 1 ==> pairs[..|pairs| - 1][i] == pairs[i];
      m[last.0 := last.1]
  }

  /** The value a key ends up with is the one of its last pair. */
  lemma {:induction false} PairsToMapLast(pairs: seq<(string, Value)>, i: nat)
    requires i < |pairs|
    requires forall j :: i < j < |pairs| ==> pairs[j].0 != pairs[i].0
    ensures PairsToMap(pairs)[pairs[i].0] == pairs[i].1
  {
    if i < |pairs| - 1 {
      var init := pairs[..|pairs| - 1];
      PairsToMapLast(init, i);
    }
  }

  /** The dictionary as it stands while the numeric fields are being cleaned,
      and the exception raised so far, if any. */
  datatype Progress = Progress(fields: Fields, failure: Option<CleanError>)

  /** `data[key] = cleaner(data.get(key))`, unless an exception was already
      raised; an exception leaves the dictionary as it is. */
  function Step(p: Progress, key: string, c: Cleaner): (q: Progress)
    ensures p.failure.Some? ==> q == p
    ensures q.failure.Some? ==> q.fields == p.fields
    ensures p.fields.Keys <= q.fields.Keys
    ensures q.failure.None? ==> key in q.fields && Apply(c, Get(p.fields, key)) == Ok(q.fields[key])
  {
    if p.failure.Some? then p
    else
      match Apply(c, Get(p.fields, key))
      case Ok(v) => Progress(p.fields[key := v], None)
      case Err(e) => Progress(p.fields, Some(e))
  }

  const PriceKey := "Price"
  const YieldKey := "Yield"
  const AreaKey := "Area (in sq ft)"
  const PricePsfKey := "Price/Unit Area ($/psf)"

  /** The four cleaning statements, in the order the source runs them. */
  function CleanFields(d: Fields): (p: Progress)
    ensures d.Keys <= p.fields.Keys
    ensures p.failure.None? ==> {PriceKey, YieldKey, AreaKey, PricePsfKey} <= p.fields.Keys
  {
    var p1 := Step(Progress(d, None), PriceKey, PriceCleaner);
    var p2 := Step(p1, YieldKey, YieldCleaner);
    var p3 := Step(p2, AreaKey, AreaCleaner);
    Step(p3, PricePsfKey, PricePsfCleaner)
  }

  /** The output record: column name to value, in column order. */
  type Record = seq<(string, Value)>

  /** The `formatted_data` literal: eleven columns in a fixed order, each read
      with `get` from the dictionary; the yield column carries a trailing space
      in its name but is read from "Yield". */
  function BuildRecord(d: Fields): (r: Record)
    ensures |r| == |OutputColumns|
    ensures forall i :: 0 <= i < |r| ==> r[i] == (OutputColumns[i], Get(d, SourceKey(OutputColumns[i])))
  {
    [ ("Date", Get(d, "Date")),
      ("Asset", Get(d, "Asset")),
      ("Address", Get(d, "Address")),
      ("Price", Get(d, PriceKey)),
      ("Yield ", Get(d, YieldKey)),
      ("Type of Area (Site/NLA/GFA)", Get(d, "Type of Area (Site/NLA/GFA)")),
      ("Area (in sq ft)", Get(d, AreaKey)),
      ("Price/Unit Area ($/psf)", Get(d, PricePsfKey)),
      ("Buyer", Get(d, "Buyer")),
      ("Seller", Get(d, "Seller")),
      ("Comments", Get(d, "Comments")) ]
  }

  /** The whole of `clean_and_format_data` on the dictionary it is given: the
      first exception a cleaner raises, or the record built from the cleaned
      dictionary. */
  function FormatRecord(d: Fields): (r: Result<Record, CleanError>)
    ensures r.Ok? ==> |r.value| == |OutputColumns|
                      && forall i :: 0 <= i < |r.value| ==> r.value[i].0 == OutputColumns[i]
    ensures r.Err? ==> CleanFields(d).failure == Some(r.error)
  {
    var p := CleanFields(d);
    if p.failure.Some? then Err(p.failure.value) else Ok(BuildRecord(p.fields))
  }

  /** The column names of a record, in order. */
  function Columns(r: Record): (cs: seq<string>)
    ensures |cs| == |r| && forall i :: 0 <= i < |r| ==> cs[i] == r[i].0
  {
    if r == [] then [] else Columns(r[..|r| - 1]) + [r[|r| - 1].0]
  }

  /** The value of the first column of that name, if there is one. */
  function Lookup(r: Record, column: string): Option<Value>
  {
    if r == [] then None
    else if r[0].0 == column then Some(r[0].1)
    else Lookup(r[1..], column)
  }

  /** The headers of the output table, as the record lists them. */
  const OutputColumns: seq<string> :=
    ["Date", "Asset", "Address", "Price", "Yield ", "Type of Area (Site/NLA/GFA)",
     "Area (in sq ft)", "Price/Unit Area ($/psf)", "Buyer", "Seller", "Comments"]

  /** The key of the extracted dictionary a column is read from. */
  function SourceKey(column: string): string
  {
    if column == "Yield " then YieldKey else column
  }

  /** The text columns, copied without cleaning. */
  const TextColumns: set<string> :=
    {"Date", "Asset", "Address", "Type of Area (Site/NLA/GFA)", "Buyer", "Seller", "Comments"}

  /** The numeric fields, each with the cleaner applied to it. */
  function NumericCleaner(key: string): Option<Cleaner>
  {
    if key == PriceKey then Some(PriceCleaner)
    else if key == YieldKey then Some(YieldCleaner)
    else if key == AreaKey then Some(AreaCleaner)
    else if key == PricePsfKey then Some(PricePsfCleaner)
    else None
  }

  /** A cleaner raises on the dictionary as extracted. */
  predicate Raises(d: Fields, key: string, c: Cleaner)
  {
    Apply(c, Get(d, key)).Err?
  }

  /** The four keys the cleaners write are distinct. */
  lemma NumericKeysDistinct()
    ensures PriceKey != YieldKey && PriceKey != AreaKey && PriceKey != PricePsfKey
    ensures YieldKey != AreaKey && YieldKey != PricePsfKey && AreaKey != PricePsfKey
  {
    assert PriceKey[0] != YieldKey[0] && PriceKey[0] != AreaKey[0];
    assert |PriceKey| != |PricePsfKey|;
    assert YieldKey[0] != AreaKey[0] && YieldKey[0] != PricePsfKey[0];
    assert AreaKey[0] != PricePsfKey[0];
  }

  /** A cleaning statement changes its own key and nothing else, and fails
      when an earlier one did or when its cleaner raises. */
  lemma StepFrame(p: Progress, key: string, c: Cleaner, other: string)
    requires other != key
    ensures Get(Step(p, key, c).fields, other) == Get(p.fields, other)
    ensures Step(p, key, c).failure.Some? <==> p.failure.Some? || Raises(p.fields, key, c)
    ensures p.failure.Some? ==> Step(p, key, c) == p
    ensures p.failure.None? && Raises(p.fields, key, c)
        ==> Step(p, key, c).failure == Some(AttributeError(Get(p.fields, key)))
  {
  }

  /** A clean that succeeded: cleaning one field does not change the others,
      so each cleaner sees the value as it was extracted. */
  lemma CleanFieldsSucceeds(d: Fields)
    requires !Raises(d, PriceKey, PriceCleaner) && !Raises(d, YieldKey, YieldCleaner)
    requires !Raises(d, AreaKey, AreaCleaner) && !Raises(d, PricePsfKey, PricePsfCleaner)
    ensures CleanFields(d).failure == None
    ensures CleanFields(d).fields
         == d[PriceKey := Apply(PriceCleaner, Get(d, PriceKey)).value]
             [YieldKey := Apply(YieldCleaner, Get(d, YieldKey)).value]
             [AreaKey := Apply(AreaCleaner, Get(d, AreaKey)).value]
             [PricePsfKey := Apply(PricePsfCleaner, Get(d, PricePsfKey)).value]
  {
    NumericKeysDistinct();
    var p1 := Step(Progress(d, None), PriceKey, PriceCleaner);
    StepFrame(Progress(d, None), PriceKey, PriceCleaner, YieldKey);
    StepFrame(Progress(d, None), PriceKey, PriceCleaner, AreaKey);
    StepFrame(Progress(d, None), PriceKey, PriceCleaner, PricePsfKey);
    var p2 := Step(p1, YieldKey, YieldCleaner);
    StepFrame(p1, YieldKey, YieldCleaner, AreaKey);
    StepFrame(p1, YieldKey, YieldCleaner, PricePsfKey);
    var p3 := Step(p2, AreaKey, AreaCleaner);
    StepFrame(p2, AreaKey, AreaCleaner, PricePsfKey);
  }

  /** The exception reported is the one for the first field, in the order
      Price, Yield, Area, Price/Unit Area, whose value is truthy and not a
      string. */
  lemma CleanFieldsFails(d: Fields)
    ensures Raises(d, PriceKey, PriceCleaner)
        ==> CleanFields(d).failure == Some(AttributeError(Get(d, PriceKey)))
    ensures !Raises(d, PriceKey, PriceCleaner) && Raises(d, YieldKey, YieldCleaner)
        ==> CleanFields(d).failure == Some(AttributeError(Get(d, YieldKey)))
    ensures !Raises(d, PriceKey, PriceCleaner) && !Raises(d, YieldKey, YieldCleaner)
        && Raises(d, AreaKey, AreaCleaner)
        ==> CleanFields(d).failure == Some(AttributeError(Get(d, AreaKey)))
    ensures !Raises(d, PriceKey, PriceCleaner) && !Raises(d, YieldKey, YieldCleaner)
        && !Raises(d, AreaKey, AreaCleaner) && Raises(d, PricePsfKey, PricePsfCleaner)
        ==> CleanFields(d).failure == Some(AttributeError(Get(d, PricePsfKey)))
  {
    NumericKeysDistinct();
    var p0 := Progress(d, None);
    var p1 := Step(p0, PriceKey, PriceCleaner);
    StepFrame(p0, PriceKey, PriceCleaner, YieldKey);
    StepFrame(p0, PriceKey, PriceCleaner, AreaKey);
    StepFrame(p0, PriceKey, PriceCleaner, PricePsfKey);
    var p2 := Step(p1, YieldKey, YieldCleaner);
    StepFrame(p1, YieldKey, YieldCleaner, AreaKey);
    StepFrame(p1, YieldKey, YieldCleaner, PricePsfKey);
    var p3 := Step(p2, AreaKey, AreaCleaner);
    StepFrame(p2, AreaKey, AreaCleaner, PricePsfKey);
    StepFrame(p3, PricePsfKey, PricePsfCleaner, PriceKey);
  }

  /** Formatting fails exactly when one of the four numeric fields holds a
      truthy value that is not a string. */
  lemma FormatRecordFails(d: Fields)
    ensures FormatRecord(d).Err?
        <==> Raises(d, PriceKey, PriceCleaner) || Raises(d, YieldKey, YieldCleaner)
             || Raises(d, AreaKey, AreaCleaner) || Raises(d, PricePsfKey, PricePsfCleaner)
  {
    CleanFieldsFails(d);
    if !Raises(d, PriceKey, PriceCleaner) && !Raises(d, YieldKey, YieldCleaner)
       && !Raises(d, AreaKey, AreaCleaner) && !Raises(d, PricePsfKey, PricePsfCleaner) {
      CleanFieldsSucceeds(d);
    }
  }

  /** Every record has the eleven output columns, in order, whatever the
      dictionary held. */
  lemma RecordColumns(d: Fields)
    ensures Columns(BuildRecord(d)) == OutputColumns
  {
    var r := BuildRecord(d);
    var cs := Columns(r);
    assert forall i :: 0 <= i < |r| ==> cs[i] == OutputColumns[i];
  }

  /** No name occurs twice in `cs`. */
  predicate Distinct(cs: seq<string>)
  {
    forall i, j :: 0 <= i < j < |cs| ==> cs[i] != cs[j]
  }

  /** The output columns are eleven distinct names. */
  lemma OutputColumnsDistinct()
    ensures |OutputColumns| == 11 && Distinct(OutputColumns)
  {
  }

  /** Each column of the record holds the value its source key has in the
      dictionary the record is built from, or None for a missing key. */
  lemma RecordLookup(d: Fields, column: string)
    requires column in OutputColumns
    ensures Lookup(BuildRecord(d), column) == Some(Get(d, SourceKey(column)))
  {
    var r := BuildRecord(d);
    OutputColumnsDistinct();
    var i :| 0 <= i < |OutputColumns| && OutputColumns[i] == column;
    LookupFirst(r, column);
    assert r[i].0 == column && forall j :: 0 <= j < i ==> r[j].0 != column;
  }

  /** A name absent from the output columns has no column in the record. */
  lemma RecordLookupOther(d: Fields, column: string)
    requires column !in OutputColumns
    ensures Lookup(BuildRecord(d), column) == None
  {
    LookupFirst(BuildRecord(d), column);
  }

  /** The lookup finds the first column of the name. */
  lemma {:induction false} LookupFirst(r: Record, column: string)
    ensures Lookup(r, column).Some? <==> exists i :: 0 <= i < |r| && r[i].0 == column
    ensures forall i :: 0 <= i < |r| && r[i].0 == column
                        && (forall j :: 0 <= j < i ==> r[j].0 != column)
                        ==> Lookup(r, column) == Some(r[i].1)
  {
    if r != [] && r[0].0 != column {
      LookupFirst(r[1..], column);
      assert forall i :: 1 <= i < |r| ==> r[1..][i - 1] == r[i];
    }
  }

  /** The text columns are output columns read from the key of their own name. */
  lemma TextColumnsAreOutputColumns(column: string)
    requires column in TextColumns
    ensures column in OutputColumns && SourceKey(column) == column
  {
  }

  /** What a successful format gives: the text columns copied from the
      dictionary unchanged (None when missing), and the four numeric columns
      holding the cleaners' results on the values as extracted; "Yield "
      holds the cleaned "Yield". */
  lemma FormattedRecord(d: Fields, r: Record)
    requires FormatRecord(d) == Ok(r)
    ensures !Raises(d, PriceKey, PriceCleaner) && !Raises(d, YieldKey, YieldCleaner)
    ensures !Raises(d, AreaKey, AreaCleaner) && !Raises(d, PricePsfKey, PricePsfCleaner)
    ensures Columns(r) == OutputColumns
    ensures forall column :: column in TextColumns ==> Lookup(r, column) == Some(Get(d, column))
    ensures Lookup(r, "Price") == Some(Apply(PriceCleaner, Get(d, PriceKey)).value)
    ensures Lookup(r, "Yield ") == Some(Apply(YieldCleaner, Get(d, YieldKey)).value)
    ensures Lookup(r, "Area (in sq ft)") == Some(Apply(AreaCleaner, Get(d, AreaKey)).value)
    ensures Lookup(r, "Price/Unit Area ($/psf)")
         == Some(Apply(PricePsfCleaner, Get(d, PricePsfKey)).value)
  {
    FormatRecordFails(d);
    CleanFieldsSucceeds(d);
    var cleaned := CleanFields(d).fields;
    assert r == BuildRecord(cleaned);
    RecordColumns(cleaned);
    var price, yieldValue := Apply(PriceCleaner, Get(d, PriceKey)).value, Apply(YieldCleaner, Get(d, YieldKey)).value;
    var area, pricePsf := Apply(AreaCleaner, Get(d, AreaKey)).value, Apply(PricePsfCleaner, Get(d, PricePsfKey)).value;
    TextLookups(d, cleaned, price, yieldValue, area, pricePsf);
    NumericLookups(cleaned, price, yieldValue, area, pricePsf);
  }

  lemma TextLookups(d: Fields, cleaned: Fields, price: Value, yieldValue: Value, area: Value, pricePsf: Value)
    requires cleaned
         == d[PriceKey := price][YieldKey := yieldValue][AreaKey := area][PricePsfKey := pricePsf]
    ensures forall column :: column in TextColumns ==>
              Lookup(BuildRecord(cleaned), column) == Some(Get(d, column))
  {
    forall column | column in TextColumns
      ensures Lookup(BuildRecord(cleaned), column) == Some(Get(d, column))
    {
      TextColumnsAreOutputColumns(column);
      NumericKeysAreNotText(column);
      RecordLookup(cleaned, column);
    }
  }

  /** No text column is one of the four numeric keys. */
  lemma NumericKeysAreNotText(column: string)
    requires column in TextColumns
    ensures column != PriceKey && column != YieldKey && column != AreaKey && column != PricePsfKey
  {
  }

  lemma NumericLookups(cleaned: Fields, price: Value, yieldValue: Value, area: Value, pricePsf: Value)
    requires Get(cleaned, PriceKey) == price && Get(cleaned, YieldKey) == yieldValue
    requires Get(cleaned, AreaKey) == area && Get(cleaned, PricePsfKey) == pricePsf
    ensures Lookup(BuildRecord(cleaned), "Price") == Some(price)
    ensures Lookup(BuildRecord(cleaned), "Yield ") == Some(yieldValue)
    ensures Lookup(BuildRecord(cleaned), "Area (in sq ft)") == Some(area)
    ensures Lookup(BuildRecord(cleaned), "Price/Unit Area ($/psf)") == Some(pricePsf)
  {
    RecordLookup(cleaned, "Price");
    RecordLookup(cleaned, "Yield ");
    RecordLookup(cleaned, "Area (in sq ft)");
    RecordLookup(cleaned, "Price/Unit Area ($/psf)");
  }

  /** Two dictionaries that agree everywhere except at one key. */
  ghost predicate AgreeExcept(a: Fields, b: Fields, x: string)
  {
    forall k :: k != x ==> Get(a, k) == Get(b, k)
  }

  /** A cleaning statement on another key keeps two such dictionaries in step. */
  lemma StepAgree(p: Progress, q: Progress, key: string, c: Cleaner, x: string)
    requires key != x && p.failure == q.failure && AgreeExcept(p.fields, q.fields, x)
    ensures Step(p, key, c).failure == Step(q, key, c).failure
    ensures AgreeExcept(Step(p, key, c).fields, Step(q, key, c).fields, x)
  {
    assert Get(p.fields, key) == Get(q.fields, key);
    var r := Apply(c, Get(p.fields, key));
    if p.failure.None? && r.Ok? {
      var a, b := p.fields[key := r.value], q.fields[key := r.value];
      forall k | k != x ensures Get(a, k) == Get(b, k) {
        if k != key {
          assert Get(a, k) == Get(p.fields, k) && Get(b, k) == Get(q.fields, k);
        }
      }
    }
  }

  /** The record reads no key but its columns' source keys. */
  lemma RecordAgree(a: Fields, b: Fields, x: string)
    requires x !in TextColumns && NumericCleaner(x).None? && AgreeExcept(a, b, x)
    ensures BuildRecord(a) == BuildRecord(b)
  {
    forall i | 0 <= i < |OutputColumns| ensures SourceKey(OutputColumns[i]) != x {
    }
  }

  /** The record depends on nothing but the keys the columns are read from:
      any other key of the dictionary is dropped. */
  lemma OtherKeysIgnored(d: Fields, key: string, v: Value)
    requires key !in TextColumns && NumericCleaner(key).None?
    ensures FormatRecord(d[key := v]) == FormatRecord(d)
  {
    var e := d[key := v];
    assert AgreeExcept(d, e, key);
    var p0, q0 := Progress(d, None), Progress(e, None);
    var p1, q1 := Step(p0, PriceKey, PriceCleaner), Step(q0, PriceKey, PriceCleaner);
    StepAgree(p0, q0, PriceKey, PriceCleaner, key);
    var p2, q2 := Step(p1, YieldKey, YieldCleaner), Step(q1, YieldKey, YieldCleaner);
    StepAgree(p1, q1, YieldKey, YieldCleaner, key);
    var p3, q3 := Step(p2, AreaKey, AreaCleaner), Step(q2, AreaKey, AreaCleaner);
    StepAgree(p2, q2, AreaKey, AreaCleaner, key);
    StepAgree(p3, q3, PricePsfKey, PricePsfCleaner, key);
    if CleanFields(d).failure.None? {
      RecordAgree(CleanFields(d).fields, CleanFields(e).fields, key);
    }
  }

  /** Once a cleaner has raised, the statements after it change nothing. */
  lemma FailureStays(p: Progress, d: Fields)
    requires p.failure.Some?
    requires p == Step(Progress(d, None), PriceKey, PriceCleaner)
          || p == Step(Step(Progress(d, None), PriceKey, PriceCleaner), YieldKey, YieldCleaner)
          || p == Step(Step(Step(Progress(d, None), PriceKey, PriceCleaner), YieldKey, YieldCleaner),
                       AreaKey, AreaCleaner)
    ensures CleanFields(d) == p
  {
  }

  /** The dictionary the extraction step hands over, updated in place. */
  class FieldDict {
    var entries: Fields

    constructor (entries: Fields)
      ensures this.entries == entries
    {
      this.entries := entries;
    }
  }

  /** `clean_and_format_data(data)`: the numeric fields of `data` are cleaned
      in place, one statement at a time; an exception stops the work and
      leaves the fields cleaned so far in place. */
  method CleanAndFormatData(data: FieldDict) returns (r: Result<Record, CleanError>)
    modifies data
    ensures r == FormatRecord(old(data.entries))
    ensures data.entries == CleanFields(old(data.entries)).fields
  {
    ghost var d := data.entries;
    ghost var p := Progress(d, None);
    var price := Apply(PriceCleaner, Get(data.entries, PriceKey));
    p := Step(p, PriceKey, PriceCleaner);
    if price.Err? {
      FailureStays(p, d);
      return Err(price.error);
    }
    data.entries := data.entries[PriceKey := price.value];
    assert p == Progress(data.entries, None);
    var yieldValue := Apply(YieldCleaner, Get(data.entries, YieldKey));
    p := Step(p, YieldKey, YieldCleaner);
    if yieldValue.Err? {
      FailureStays(p, d);
      return Err(yieldValue.error);
    }
    data.entries := data.entries[YieldKey := yieldValue.value];
    assert p == Progress(data.entries, None);
    var area := Apply(AreaCleaner, Get(data.entries, AreaKey));
    p := Step(p, AreaKey, AreaCleaner);
    if area.Err? {
      FailureStays(p, d);
      return Err(area.error);
    }
    data.entries := data.entries[AreaKey := area.value];
    assert p == Progress(data.entries, None);
    var pricePsf := Apply(PricePsfCleaner, Get(data.entries, PricePsfKey));
    p := Step(p, PricePsfKey, PricePsfCleaner);
    if pricePsf.Err? {
      return Err(pricePsf.error);
    }
    data.entries := data.entries[PricePsfKey := pricePsf.value];
    assert p == Progress(data.entries, None) == CleanFields(d);
    r := Ok(BuildRecord(data.entries));
  }
}
