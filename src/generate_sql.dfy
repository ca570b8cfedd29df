/** The offline script that turns the spreadsheet of mahallahs into a MySQL
    script: rows are read, grouped by region and district in the order they
    were first seen, and emitted as `INSERT` statements. The spreadsheet
    reader, the clock and the file write are outside the model: the rows and
    the timestamp are parameters, and the script is the sequence of its lines
    before they are joined. */
module GenerateSql {
  import opened Wrappers
  import opened JsString
  import Escaping

  const Quote: char := '\''
  const DoubleQuote: char := '"'

  // ---------------------------------------------------------------------
  // escapeSql and how MySQL reads the literal it ends up in

  /** `text.replace(/'/g, "\\'").replace(/"/g, '\\"')` */
  function EscapeSql(text: String): String {
    Escaping.ChainReplace(text, [Quote, DoubleQuote])
  }

  /** `escapeSql` puts one backslash before each `'` and `"` and copies every
      other character, the backslash included. */
  lemma EscapeSqlPerCharacter(a: String, b: String, c: char)
    ensures EscapeSql(a + b) == EscapeSql(a) + EscapeSql(b)
    ensures EscapeSql([c]) == if c == Quote || c == DoubleQuote then [Escaping.Backslash, c] else [c]
  {
    EscapeSqlOnePass(a + b);
    EscapeSqlOnePass(a);
    EscapeSqlOnePass(b);
    EscapeSqlOnePass([c]);
    Escaping.EscapeAllAppend(a, b, {Quote, DoubleQuote});
  }

  lemma EscapeSqlOnePass(text: String)
    ensures EscapeSql(text) == Escaping.EscapeAll(text, {Quote, DoubleQuote})
  {
    var chain := [Quote, DoubleQuote];
    assert Escaping.Distinct(chain);
    Escaping.ChainIsOnePassFromText(text, chain);
    assert (set c | c in chain) == {Quote, DoubleQuote};
  }

  /** What MySQL makes of a backslash followed by `c` inside a quoted string
      literal, under its default SQL mode: the escape sequences of the
      "String Literals" section of the MySQL reference manual, `\%` and `\_`
      keeping their backslash, and any other character standing for itself. */
  function Unescaped(c: char): String {
    if c == '0' then ['\0']
    else if c == 'b' then ['\U{0008}']
    else if c == 'n' then ['\n']
    else if c == 'r' then ['\r']
    else if c == 't' then ['\t']
    else if c == 'Z' then ['\U{001A}']
    else if c == '%' || c == '_' then [Escaping.Backslash, c]
    else [c]
  }

  /** MySQL reading the rest of a single-quoted literal whose opening quote
      has been consumed: the value, and what follows the closing quote, or
      `None` when the literal never closes. A doubled quote stands for one
      quote. */
  function ReadQuoted(t: String): Option<(String, String)>
    decreases |t|
  {
    if t == [] then None
    else if t[0] == Escaping.Backslash then
      if |t| == 1 then None
      else match ReadQuoted(t[2..])
        case None => None
        case Some(p) => Some((Unescaped(t[1]) + p.0, p.1))
    else if t[0] == Quote then
      if |t| >= 2 && t[1] == Quote then
        match ReadQuoted(t[2..])
        case None => None
        case Some(p) => Some(([Quote] + p.0, p.1))
      else Some(([], t[1..]))
    else match ReadQuoted(t[1..])
      case None => None
      case Some(p) => Some(([t[0]] + p.0, p.1))
  }

  /** Escaping a set of characters that MySQL reads back as themselves, the
      quote among them, makes any text that either has no backslash or has
      its backslashes escaped too read back exactly, followed by what comes
      after the closing quote. */
  lemma {:induction false} ReadsBack(s: String, reserved: set<char>, rest: String)
    requires Quote in reserved
    requires forall c :: c in reserved ==> Unescaped(c) == [c]
    requires Escaping.Backslash in reserved || Escaping.Backslash !in s
    requires rest == [] || rest[0] != Quote
    ensures ReadQuoted(Escaping.EscapeAll(s, reserved) + [Quote] + rest) == Some((s, rest))
  {
    var t := Escaping.EscapeAll(s, reserved) + [Quote] + rest;
    if s == [] {
      assert t == [Quote] + rest;
      assert t[1..] == rest;
    } else {
      var c, tail := s[0], s[1..];
      assert Escaping.Backslash in reserved || Escaping.Backslash !in tail by {
        assert s == [c] + tail;
      }
      ReadsBack(tail, reserved, rest);
      var e := Escaping.EscapeChar(c, reserved);
      var x := Escaping.EscapeAll(tail, reserved) + [Quote] + rest;
      Regroup4(e, Escaping.EscapeAll(tail, reserved), [Quote], rest);
      ReadsBackOne(c, reserved, x, tail, rest);
      assert [c] + tail == s;
    }
  }

  /** One escaped character in front of text that reads back as `tail`. */
  lemma ReadsBackOne(c: char, reserved: set<char>, x: String, tail: String, rest: String)
    requires Quote in reserved
    requires c in reserved ==> Unescaped(c) == [c]
    requires c in reserved || c != Escaping.Backslash
    requires ReadQuoted(x) == Some((tail, rest))
    ensures ReadQuoted(Escaping.EscapeChar(c, reserved) + x) == Some(([c] + tail, rest))
  {
    var t := Escaping.EscapeChar(c, reserved) + x;
    if c in reserved {
      assert t[0] == Escaping.Backslash && t[1] == c && t[2..] == x;
    } else {
      assert t[0] == c && t[1..] == x;
    }
  }

  /** Text after which no quote follows never closes the literal. */
  lemma {:induction false} Unterminated(t: String)
    requires forall i :: 0 <= i < |t| ==> t[i] != Quote
    ensures ReadQuoted(t) == None
    decreases |t|
  {
    if t != [] {
      if t[0] == Escaping.Backslash {
        if |t| > 1 {
          Unterminated(t[2..]);
        }
      } else {
        Unterminated(t[1..]);
      }
    }
  }

  /** As written, a value without backslashes reads back exactly. */
  lemma EscapeSqlReadsBackWithoutBackslash(s: String, rest: String)
    requires Escaping.Backslash !in s
    requires rest == [] || rest[0] != Quote
    ensures ReadQuoted(EscapeSql(s) + [Quote] + rest) == Some((s, rest))
  {
    EscapeSqlOnePass(s);
    ReadsBack(s, {Quote, DoubleQuote}, rest);
  }

  /** As written, a name ending in a backslash swallows the closing quote: in
      a region's `INSERT` the literal never closes, whatever follows it on
      the line. */
  lemma EscapeSqlMisreadByMysql(rest: String)
    requires forall i :: 0 <= i < |rest| ==> rest[i] != Quote
    ensures ReadQuoted(EscapeSql([Escaping.Backslash]) + [Quote] + rest) == None
  {
    EscapeSqlOnePass([Escaping.Backslash]);
    var t := [Escaping.Backslash] + [Quote] + rest;
    assert EscapeSql([Escaping.Backslash]) + [Quote] + rest == t;
    assert t[2..] == rest;
    Unterminated(rest);
  }

  /** The evidently intended `escapeSql`: the backslash is escaped first,
      then the quotes, so every value reads back as written. */
  function EscapeSqlCorrected(text: String): String {
    Escaping.ChainReplace(Escaping.ReplaceWithEscaped(text, Escaping.Backslash), [Quote, DoubleQuote])
  }

  /** The characters the corrected escaper escapes each read back as
      themselves after a backslash. */
  lemma CorrectedReservedReadBack(reserved: set<char>)
    requires reserved == {Escaping.Backslash, Quote, DoubleQuote}
    ensures forall c :: c in reserved ==> Unescaped(c) == [c]
  {
    forall c | c in reserved ensures Unescaped(c) == [c] {
      assert c == Escaping.Backslash || c == Quote || c == DoubleQuote;
    }
  }

  lemma EscapeSqlCorrectedOnePass(s: String)
    ensures EscapeSqlCorrected(s) == Escaping.EscapeAll(s, {Escaping.Backslash, Quote, DoubleQuote})
  {
    var chain := [Quote, DoubleQuote];
    assert Escaping.Distinct(chain);
    Escaping.ChainIsOnePass(s, {Escaping.Backslash}, chain);
    assert {Escaping.Backslash} + (set c | c in chain) == {Escaping.Backslash, Quote, DoubleQuote};
  }

  /** Corrected, every value reads back exactly. */
  lemma EscapeSqlCorrectedReadsBack(s: String, rest: String)
    requires rest == [] || rest[0] != Quote
    ensures ReadQuoted(EscapeSqlCorrected(s) + [Quote] + rest) == Some((s, rest))
  {
    var reserved := {Escaping.Backslash, Quote, DoubleQuote};
    EscapeSqlCorrectedOnePass(s);
    CorrectedReservedReadBack(reserved);
    ReadsBack(s, reserved, rest);
  }

  // ---------------------------------------------------------------------
  // slugify

  predicate SlugChar(c: char) {
    'a' <= c <= 'z' || '0' <= c <= '9' || c == '_'
  }

  /** `toLowerCase` on ASCII letters. */
  function LowerChar(c: char): char {
    if 'A' <= c <= 'Z' then (c as int + 32) as char else c
  }

  /** `.toLowerCase().replace(/[^a-z0-9_]/g, '_')` */
  function LowerAndReplace(s: String): (r: String)
    ensures |r| == |s|
    ensures forall i :: 0 <= i < |r| ==> SlugChar(r[i])
    ensures forall i :: 0 <= i < |r| ==> SlugChar(s[i]) ==> r[i] == s[i]
  {
    if s == [] then []
    else
      var c := LowerChar(s[0]);
      [if SlugChar(c) then c else '_'] + LowerAndReplace(s[1..])
  }

  predicate NoDoubleUnderscore(s: String) {
    forall i :: 0 <= i < |s| - 1 ==> !(s[i] == '_' && s[i + 1] == '_')
  }

  /** `.replace(/_+/g, '_')`: every run of underscores becomes one. */
  function Squeeze(s: String): (r: String)
    ensures |r| <= |s| && (r == [] <==> s == [])
    ensures s != [] ==> r[0] == s[0] && r[|r| - 1] == s[|s| - 1]
    ensures forall i :: 0 <= i < |r| ==> r[i] in s
    ensures NoDoubleUnderscore(r)
  {
    if |s| < 2 then s
    else if s[0] == '_' && s[1] == '_' then Squeeze(s[1..])
    else [s[0]] + Squeeze(s[1..])
  }

  /** `.replace(/^_|_$/g, '')`: one leading and one trailing underscore go. */
  function TrimUnderscores(s: String): String {
    var t := if s != [] && s[0] == '_' then s[1..] else s;
    if t != [] && t[|t| - 1] == '_' then t[..|t| - 1] else t
  }

  /** Trimming a squeezed slug-character text leaves a slug-character text
      with an underscore at neither end. */
  lemma TrimUnderscoresSpec(s: String)
    requires NoDoubleUnderscore(s)
    requires forall i :: 0 <= i < |s| ==> SlugChar(s[i])
    ensures var r := TrimUnderscores(s);
      (forall i :: 0 <= i < |r| ==> SlugChar(r[i]))
      && NoDoubleUnderscore(r)
      && (r == [] || (r[0] != '_' && r[|r| - 1] != '_'))
  {
    var t := if s != [] && s[0] == '_' then s[1..] else s;
    SliceKeeps(s, if s != [] && s[0] == '_' then 1 else 0, |s|);
    if t != [] && t[|t| - 1] == '_' {
      SliceKeeps(t, 0, |t| - 1);
    }
  }

  lemma SliceKeeps(s: String, lo: nat, hi: nat)
    requires lo <= hi <= |s|
    requires NoDoubleUnderscore(s)
    requires forall i :: 0 <= i < |s| ==> SlugChar(s[i])
    ensures NoDoubleUnderscore(s[lo..hi])
    ensures forall i :: 0 <= i < hi - lo ==> SlugChar(s[lo..hi][i])
  {
    assert forall i :: 0 <= i < hi - lo ==> s[lo..hi][i] == s[lo + i];
  }

  /** `slugify`: only lower-case letters, digits and single underscores,
      never at either end. */
  function Slugify(text: String): (slug: String)
    ensures forall i :: 0 <= i < |slug| ==> SlugChar(slug[i])
    ensures NoDoubleUnderscore(slug)
    ensures slug == [] || (slug[0] != '_' && slug[|slug| - 1] != '_')
  {
    var s := Squeeze(LowerAndReplace(text));
    assert forall i :: 0 <= i < |s| ==> SlugChar(s[i]);
    TrimUnderscoresSpec(s);
    TrimUnderscores(s)
  }

  lemma {:induction false} SqueezeKeeps(s: String)
    requires NoDoubleUnderscore(s)
    ensures Squeeze(s) == s
  {
    if |s| >= 2 {
      var tail := s[1..];
      assert NoDoubleUnderscore(tail) by {
        forall i | 0 <= i < |tail| - 1 ensures !(tail[i] == '_' && tail[i + 1] == '_') {
          assert tail[i] == s[i + 1] && tail[i + 1] == s[i + 2];
        }
      }
      SqueezeKeeps(tail);
      assert !(s[0] == '_' && s[1] == '_');
      assert Squeeze(s) == [s[0]] + Squeeze(tail);
      assert [s[0]] + tail == s;
    }
  }

  /** Slugifying a slug changes nothing. */
  lemma SlugifyIdempotent(text: String)
    ensures Slugify(Slugify(text)) == Slugify(text)
  {
    SlugifyOfSlug(Slugify(text));
  }

  /** A slug slugifies to itself. */
  lemma SlugifyOfSlug(s: String)
    requires forall i :: 0 <= i < |s| ==> SlugChar(s[i])
    requires NoDoubleUnderscore(s)
    requires s == [] || (s[0] != '_' && s[|s| - 1] != '_')
    ensures Slugify(s) == s
  {
    assert LowerAndReplace(s) == s;
    SqueezeKeeps(s);
    assert TrimUnderscores(s) == s;
  }

  // ---------------------------------------------------------------------
  // Rows of the spreadsheet

  /** A cell as the spreadsheet reader gives it: text or an (integer) number. */
  datatype Cell = Text(text: String) | Numeric(n: int) {
    /** JavaScript truthiness: the empty string and 0 are falsy. */
    predicate Truthy() {
      if Text? then text != [] else n != 0
    }
    /** `String(cell)` */
    function AsString(): String {
      if Text? then text else IntToString(n)
    }
  }

  /** A row: the cells under each column heading; a missing key is an empty cell. */
  type Row = map<String, Cell>

  const RegionColumns: seq<String> := ["Viloyat", "Region", "region"]
  const DistrictColumns: seq<String> := ["Tuman", "District", "district"]
  const MahallahColumns: seq<String> := ["Mahalla nomi", "Mahalla", "mahalla", "name"]
  const PopulationColumns: seq<String> := ["Aholi soni", "Population", "population"]

  predicate Filled(row: Row, column: String) {
    column in row && row[column].Truthy()
  }

  /** `row[c1] || row[c2] || ...` as far as its truthiness and its truthy
      value go: the cell under the first column that holds a truthy value. */
  function FirstTruthy(row: Row, columns: seq<String>): (r: Option<Cell>)
    ensures r.Some? <==> exists i :: 0 <= i < |columns| && Filled(row, columns[i])
    ensures r.Some? ==> exists i :: 0 <= i < |columns| && Filled(row, columns[i]) && row[columns[i]] == r.value
                                  && forall j :: 0 <= j < i ==> !Filled(row, columns[j])
  {
    if columns == [] then None
    else if Filled(row, columns[0]) then Some(row[columns[0]])
    else
      var r := FirstTruthy(row, columns[1..]);
      assert forall i :: 0 <= i < |columns| - 1 ==> columns[1..][i] == columns[i + 1];
      r
  }

  /** One processed row. */
  datatype MahallahData = MahallahData(region: String, district: String, mahallah: String, population: Option<Num>)

  /** The body of the row loop: a row with a region, a district and a
      mahallah name is kept, its names trimmed; the population is parsed
      only when it is present and truthy. */
  function Extract(row: Row): Option<MahallahData> {
    var region := FirstTruthy(row, RegionColumns);
    var district := FirstTruthy(row, DistrictColumns);
    var mahallah := FirstTruthy(row, MahallahColumns);
    var population := FirstTruthy(row, PopulationColumns);
    if region.Some? && district.Some? && mahallah.Some? then
      Some(MahallahData(Trim(region.value.AsString()), Trim(district.value.AsString()),
                        Trim(mahallah.value.AsString()),
                        if population.Some? then Some(ParseInt(population.value.AsString())) else None))
    else None
  }

  /** A row is kept exactly when each of region, district and mahallah has a
      truthy cell under one of its columns, and the population is present
      exactly when one of its columns holds a truthy cell. */
  lemma ExtractKeeps(row: Row)
    ensures Extract(row).Some? <==>
              (exists i :: 0 <= i < |RegionColumns| && Filled(row, RegionColumns[i]))
              && (exists i :: 0 <= i < |DistrictColumns| && Filled(row, DistrictColumns[i]))
              && (exists i :: 0 <= i < |MahallahColumns| && Filled(row, MahallahColumns[i]))
    ensures Extract(row).Some? ==>
              (Extract(row).value.population.None? <==> forall i :: 0 <= i < |PopulationColumns| ==> !Filled(row, PopulationColumns[i]))
  {
  }

  /** The kept names have no surrounding whitespace. */
  lemma ExtractTrims(row: Row)
    requires Extract(row).Some?
    ensures var m := Extract(row).value;
      Trim(m.region) == m.region && Trim(m.district) == m.district && Trim(m.mahallah) == m.mahallah
  {
    TrimTwice(FirstTruthy(row, RegionColumns).value.AsString());
    TrimTwice(FirstTruthy(row, DistrictColumns).value.AsString());
    TrimTwice(FirstTruthy(row, MahallahColumns).value.AsString());
  }

  /** A name cell with whitespace after its text, such as the trailing
      no-break space of a spreadsheet export, gives the same entry as the
      bare text: the two rows fall under one region, district and mahallah. */
  lemma SpacePaddedCellSameEntry(row: Row, col: String, c: char)
    requires col in row && row[col].Text? && row[col].text != [] && IsSpace(c)
    requires col !in PopulationColumns
    ensures Extract(row[col := Text(row[col].text + [c])]) == Extract(row)
  {
    var padded := row[col := Text(row[col].text + [c])];
    PaddedFirstTruthy(row, RegionColumns, col, c);
    PaddedFirstTruthy(row, DistrictColumns, col, c);
    PaddedFirstTruthy(row, MahallahColumns, col, c);
    PaddedFirstTruthy(row, PopulationColumns, col, c);
  }

  lemma {:induction false} PaddedFirstTruthy(row: Row, columns: seq<String>, col: String, c: char)
    requires col in row && row[col].Text? && row[col].text != [] && IsSpace(c)
    ensures var r := FirstTruthy(row[col := Text(row[col].text + [c])], columns);
      r.Some? == FirstTruthy(row, columns).Some?
      && (r.Some? ==> Trim(r.value.AsString()) == Trim(FirstTruthy(row, columns).value.AsString()))
      && (col !in columns ==> r == FirstTruthy(row, columns))
  {
    var padded := row[col := Text(row[col].text + [c])];
    if columns != [] {
      if columns[0] == col {
        TrimTrailingSpace(row[col].text, c);
      } else {
        assert Filled(padded, columns[0]) == Filled(row, columns[0]);
        PaddedFirstTruthy(row, columns[1..], col, c);
        assert col !in columns ==> col !in columns[1..];
      }
    }
  }

  lemma TrimTwice(s: String)
    ensures Trim(Trim(s)) == Trim(s)
  {
    TrimNoSpace(Trim(s));
  }

  /** A numeric population cell is parsed back to its own value. */
  lemma ExtractNumericPopulation(row: Row, n: int)
    requires Extract(row).Some? && FirstTruthy(row, PopulationColumns) == Some(Numeric(n))
    ensures Extract(row).value.population == Some(Finite(n))
  {
    ParseIntOfIntToString(n);
  }

  /** The rows kept, in input order. */
  function Kept(rows: seq<Row>): seq<MahallahData> {
    if rows == [] then []
    else
      var m := Extract(rows[|rows| - 1]);
      Kept(rows[..|rows| - 1]) + (if m.Some? then [m.value] else [])
  }

  /** Keeping distributes over the rows: each row contributes its own entry
      or nothing, in order. */
  lemma {:induction false} KeptAppend(a: seq<Row>, b: seq<Row>)
    ensures Kept(a + b) == Kept(a) + Kept(b)
    ensures |Kept(a)| <= |a|
    decreases |b|
  {
    if b == [] {
      assert a + b == a;
      KeptBound(a);
    } else {
      var init := b[..|b| - 1];
      KeptAppend(a, init);
      assert (a + b)[..|a + b| - 1] == a + init;
    }
  }

  lemma {:induction false} KeptBound(rows: seq<Row>)
    ensures |Kept(rows)| <= |rows|
  {
    if rows != [] {
      KeptBound(rows[..|rows| - 1]);
    }
  }

  /** The row loop: each kept row is pushed onto the list. */
  method CollectEntries(rows: seq<Row>) returns (mahallahsData: seq<MahallahData>)
    ensures mahallahsData == Kept(rows)
  {
    mahallahsData := [];
    for i := 0 to |rows|
      invariant mahallahsData == Kept(rows[..i])
    {
      var m := Extract(rows[i]);
      if m.Some? {
        mahallahsData := mahallahsData + [m.value];
      }
      KeptStep(rows, i);
    }
    assert rows[..|rows|] == rows;
  }

  lemma KeptStep(rows: seq<Row>, i: nat)
    requires i < |rows|
    ensures Kept(rows[..i + 1]) == Kept(rows[..i]) + (if Extract(rows[i]).Some? then [Extract(rows[i]).value] else [])
  {
    assert rows[..i + 1][..i] == rows[..i];
  }

  // ---------------------------------------------------------------------
  // Grouping by region and district

  /** A JavaScript `Map` with string keys: its keys in insertion order and
      the value under each. */
  datatype OrderedMap<V> = OrderedMap(keys: seq<String>, values: map<String, V>) {
    ghost predicate Valid() {
      (forall i, j :: 0 <= i < j < |keys| ==> keys[i] != keys[j])
      && (forall k :: k in values <==> k in keys)
    }

    /** `m.set(k, v)`: a new key goes last, a present one keeps its place. */
    function Set(k: String, v: V): (r: OrderedMap<V>)
      ensures Valid() ==> r.Valid()
    {
      OrderedMap(if k in values then keys else keys + [k], values[k := v])
    }
  }

  /** Setting a key twice is setting it to the second value. */
  lemma SetTwice<V>(m: OrderedMap<V>, k: String, v1: V, v2: V)
    ensures m.Set(k, v1).Set(k, v2) == m.Set(k, v2)
  {
  }

  type DistrictMap = OrderedMap<seq<MahallahData>>
  type RegionMap = OrderedMap<DistrictMap>

  function DistrictsOf(regionMap: RegionMap, region: String): DistrictMap {
    if region in regionMap.values then regionMap.values[region] else OrderedMap([], map[])
  }

  function RowsOf(districtMap: DistrictMap, district: String): seq<MahallahData> {
    if district in districtMap.values then districtMap.values[district] else []
  }

  /** The body of the grouping loop: the region gets a district map if it
      has none, the district a list if it has none, and the row is pushed
      onto that list. */
  function Add(regionMap: RegionMap, item: MahallahData): RegionMap {
    var districtMap := DistrictsOf(regionMap, item.region);
    regionMap.Set(item.region, districtMap.Set(item.district, RowsOf(districtMap, item.district) + [item]))
  }

  /** The region map after the grouping loop has seen `items`. */
  function Grouped(items: seq<MahallahData>): RegionMap {
    if items == [] then OrderedMap([], map[])
    else Add(Grouped(items[..|items| - 1]), items[|items| - 1])
  }

  /** The grouping loop. */
  method GroupByRegion(mahallahsData: seq<MahallahData>) returns (regionMap: RegionMap)
    ensures regionMap == Grouped(mahallahsData)
  {
    regionMap := OrderedMap([], map[]);
    for i := 0 to |mahallahsData|
      invariant regionMap == Grouped(mahallahsData[..i])
    {
      var item := mahallahsData[i];
      ghost var before := regionMap;
      if item.region !in regionMap.values {
        regionMap := regionMap.Set(item.region, OrderedMap([], map[]));
      }
      var districtMap := regionMap.values[item.region];
      if item.district !in districtMap.values {
        districtMap := districtMap.Set(item.district, []);
      }
      ghost var added := districtMap;
      districtMap := districtMap.Set(item.district, districtMap.values[item.district] + [item]);
      SetTwice(DistrictsOf(before, item.region), item.district, added.values[item.district], districtMap.values[item.district]);
      ghost var placed := regionMap;
      regionMap := regionMap.Set(item.region, districtMap);
      SetTwice(before, item.region, placed.values[item.region], districtMap);
      assert mahallahsData[..i + 1][..i] == mahallahsData[..i];
    }
    assert mahallahsData[..|mahallahsData|] == mahallahsData;
  }

  /** The distinct elements of `s` in the order of their first occurrence. */
  function FirstSeen<T(==,!new)>(s: seq<T>): (r: seq<T>)
    ensures forall x :: x in r <==> x in s
    ensures forall i, j :: 0 <= i < j < |r| ==> r[i] != r[j]
  {
    if s == [] then []
    else
      var init := s[..|s| - 1];
      var d := FirstSeen(init);
      assert s == init + [s[|s| - 1]];
      if s[|s| - 1] in d then d else d + [s[|s| - 1]]
  }

  /** A non-empty sequence is its prefix and its last element. */
  lemma InitLast<T>(s: seq<T>)
    requires s != []
    ensures s[..|s| - 1] + [s[|s| - 1]] == s
  {
  }

  lemma FirstSeenAppend<T(!new)>(s: seq<T>, x: T)
    ensures FirstSeen(s + [x]) == if x in s then FirstSeen(s) else FirstSeen(s) + [x]
  {
    assert (s + [x])[..|s|] == s;
  }

  function Regions(items: seq<MahallahData>): seq<String> {
    if items == [] then [] else Regions(items[..|items| - 1]) + [items[|items| - 1].region]
  }

  /** The districts of the rows of `region`, in input order. */
  function DistrictsIn(items: seq<MahallahData>, region: String): seq<String> {
    if items == [] then []
    else
      var last := items[|items| - 1];
      DistrictsIn(items[..|items| - 1], region) + (if last.region == region then [last.district] else [])
  }

  /** The rows of `district` in `region`, in input order. */
  function Under(items: seq<MahallahData>, region: String, district: String): seq<MahallahData> {
    if items == [] then []
    else
      var last := items[|items| - 1];
      Under(items[..|items| - 1], region, district)
      + (if last.region == region && last.district == district then [last] else [])
  }

  /** The (region, district) pairs of the rows, in input order. */
  function Pairs(items: seq<MahallahData>): seq<(String, String)> {
    if items == [] then []
    else
      var last := items[|items| - 1];
      Pairs(items[..|items| - 1]) + [(last.region, last.district)]
  }

  /** How each of the above grows by one row. */
  lemma AppendOne(items: seq<MahallahData>, item: MahallahData, region: String, district: String)
    ensures Regions(items + [item]) == Regions(items) + [item.region]
    ensures DistrictsIn(items + [item], region) == DistrictsIn(items, region) + (if item.region == region then [item.district] else [])
    ensures Under(items + [item], region, district)
         == Under(items, region, district) + (if item.region == region && item.district == district then [item] else [])
    ensures Pairs(items + [item]) == Pairs(items) + [(item.region, item.district)]
  {
    assert (items + [item])[..|items|] == items;
  }

  lemma {:induction false} NoRegionNoDistricts(items: seq<MahallahData>, region: String)
    requires region !in Regions(items)
    ensures DistrictsIn(items, region) == []
  {
    if items != [] {
      NoRegionNoDistricts(items[..|items| - 1], region);
    }
  }

  lemma {:induction false} NoDistrictNoRows(items: seq<MahallahData>, region: String, district: String)
    requires district !in DistrictsIn(items, region)
    ensures Under(items, region, district) == []
  {
    if items != [] {
      NoDistrictNoRows(items[..|items| - 1], region, district);
    }
  }

  lemma {:induction false} PairsMembership(items: seq<MahallahData>, region: String, district: String)
    ensures (region, district) in Pairs(items) <==> district in DistrictsIn(items, region)
  {
    if items != [] {
      PairsMembership(items[..|items| - 1], region, district);
    }
  }

  /** What the district map of `region` holds after `items`: its districts
      in the order first seen, and under each the rows of that district in
      input order. */
  ghost predicate DistrictsDescribe(districtMap: DistrictMap, items: seq<MahallahData>, region: String) {
    districtMap.Valid()
    && districtMap.keys == FirstSeen(DistrictsIn(items, region))
    && forall d :: d in districtMap.values ==> districtMap.values[d] == Under(items, region, d)
  }

  /** What the region map holds after `items`: the regions in the order
      first seen, each with its districts as above. */
  ghost predicate Describes(regionMap: RegionMap, items: seq<MahallahData>) {
    regionMap.Valid()
    && regionMap.keys == FirstSeen(Regions(items))
    && forall r :: r in regionMap.values ==> DistrictsDescribe(regionMap.values[r], items, r)
  }

  lemma DistrictsOfDescribe(regionMap: RegionMap, items: seq<MahallahData>, region: String)
    requires Describes(regionMap, items)
    ensures DistrictsDescribe(DistrictsOf(regionMap, region), items, region)
    ensures region in regionMap.values <==> region in Regions(items)
  {
    if region !in regionMap.values {
      NoRegionNoDistricts(items, region);
    }
  }

  lemma RowsOfDescribe(districtMap: DistrictMap, items: seq<MahallahData>, region: String, district: String)
    requires DistrictsDescribe(districtMap, items, region)
    ensures RowsOf(districtMap, district) == Under(items, region, district)
    ensures district in districtMap.values <==> district in DistrictsIn(items, region)
  {
    if district !in districtMap.values {
      NoDistrictNoRows(items, region, district);
    }
  }

  lemma DistrictsStep(districtMap: DistrictMap, items: seq<MahallahData>, item: MahallahData)
    requires DistrictsDescribe(districtMap, items, item.region)
    ensures DistrictsDescribe(districtMap.Set(item.district, RowsOf(districtMap, item.district) + [item]),
                              items + [item], item.region)
  {
    var r, d := item.region, item.district;
    var next := items + [item];
    var updated := districtMap.Set(d, RowsOf(districtMap, d) + [item]);
    assert updated.keys == FirstSeen(DistrictsIn(next, r)) by {
      RowsOfDescribe(districtMap, items, r, d);
      AppendOne(items, item, r, d);
      FirstSeenAppend(DistrictsIn(items, r), d);
    }
    assert forall d' :: d' in updated.values ==> updated.values[d'] == Under(next, r, d') by {
      RowsOfDescribe(districtMap, items, r, d);
      forall d' | d' in updated.values ensures updated.values[d'] == Under(next, r, d') {
        AppendOne(items, item, r, d');
      }
    }
  }

  lemma DistrictsFrame(districtMap: DistrictMap, items: seq<MahallahData>, region: String, item: MahallahData)
    requires region != item.region
    requires DistrictsDescribe(districtMap, items, region)
    ensures DistrictsDescribe(districtMap, items + [item], region)
  {
    var next := items + [item];
    AppendOne(items, item, region, item.district);
    assert DistrictsIn(next, region) == DistrictsIn(items, region);
    forall d | d in districtMap.values ensures districtMap.values[d] == Under(next, region, d) {
      AppendOne(items, item, region, d);
    }
  }

  lemma AddDescribes(regionMap: RegionMap, items: seq<MahallahData>, item: MahallahData)
    requires Describes(regionMap, items)
    ensures Describes(Add(regionMap, item), items + [item])
  {
    var next := items + [item];
    DistrictsOfDescribe(regionMap, items, item.region);
    var districtMap := DistrictsOf(regionMap, item.region);
    DistrictsStep(districtMap, items, item);
    AppendOne(items, item, item.region, item.district);
    FirstSeenAppend(Regions(items), item.region);
    var updated := Add(regionMap, item);
    forall r | r in updated.values ensures DistrictsDescribe(updated.values[r], next, r) {
      if r != item.region {
        DistrictsFrame(regionMap.values[r], items, r, item);
      }
    }
  }

  /** The grouping puts the regions in the order they are first seen, under
      each its districts in the order they are first seen, and under each
      district its rows in input order. */
  lemma {:induction false} GroupedDescribes(items: seq<MahallahData>)
    ensures Describes(Grouped(items), items)
  {
    if items != [] {
      var init := items[..|items| - 1];
      GroupedDescribes(init);
      AddDescribes(Grouped(init), init, items[|items| - 1]);
      InitLast(items);
    }
  }

  // ---------------------------------------------------------------------
  // Every row exactly once; the district count

  /** The parts of the values of `keys`, in key order; a key without a value
      contributes nothing. */
  function Gather<V, X>(keys: seq<String>, values: map<String, V>, part: V -> seq<X>): seq<X> {
    if keys == [] then []
    else
      var last := keys[|keys| - 1];
      Gather(keys[..|keys| - 1], values, part) + (if last in values then part(values[last]) else [])
  }

  function Itself(rows: seq<MahallahData>): seq<MahallahData> {
    rows
  }

  function KeysOf(districtMap: DistrictMap): seq<String> {
    districtMap.keys
  }

  /** The rows of a district map, district by district. */
  function FlattenDistricts(districtMap: DistrictMap): seq<MahallahData> {
    Gather(districtMap.keys, districtMap.values, Itself)
  }

  /** The rows of a region map, region by region, district by district. */
  function Flatten(regionMap: RegionMap): seq<MahallahData> {
    Gather(regionMap.keys, regionMap.values, FlattenDistricts)
  }

  /** `Array.from(regionMap.values()).reduce((sum, dm) => sum + dm.size, 0)`:
      the sizes of the district maps added up, which is the length of all
      their key lists together. */
  function TotalDistricts(regionMap: RegionMap): nat {
    |Gather(regionMap.keys, regionMap.values, KeysOf)|
  }

  lemma {:induction false} GatherFrame<V, X>(keys: seq<String>, values: map<String, V>, part: V -> seq<X>, k: String, v: V)
    requires k !in keys
    ensures Gather(keys, values[k := v], part) == Gather(keys, values, part)
  {
    if keys != [] {
      GatherFrame(keys[..|keys| - 1], values, part, k, v);
    }
  }

  lemma GatherNew<V, X>(keys: seq<String>, values: map<String, V>, part: V -> seq<X>, k: String, v: V)
    requires k !in keys
    ensures Gather(keys + [k], values[k := v], part) == Gather(keys, values, part) + part(v)
  {
    assert (keys + [k])[..|keys|] == keys;
    GatherFrame(keys, values, part, k, v);
  }

  /** When the value of a present key grows by `extra`, the gathered parts
      grow by `extra` too, up to order. */
  lemma {:induction false} GatherGrow<V, X>(keys: seq<String>, values: map<String, V>, part: V -> seq<X>, k: String, v: V, extra: seq<X>)
    requires k in keys && k in values
    requires forall i, j :: 0 <= i < j < |keys| ==> keys[i] != keys[j]
    requires multiset(part(v)) == multiset(part(values[k])) + multiset(extra)
    ensures multiset(Gather(keys, values[k := v], part)) == multiset(Gather(keys, values, part)) + multiset(extra)
    ensures |Gather(keys, values[k := v], part)| == |Gather(keys, values, part)| + |extra|
  {
    var init, last := keys[..|keys| - 1], keys[|keys| - 1];
    if last == k {
      assert k !in init;
      GatherFrame(init, values, part, k, v);
    } else {
      assert k in init;
      assert forall i, j :: 0 <= i < j < |init| ==> init[i] != init[j] by {
        assert forall i :: 0 <= i < |init| ==> init[i] == keys[i];
      }
      GatherGrow(init, values, part, k, v, extra);
      var tail := if last in values then part(values[last]) else [];
      assert Gather(keys, values[k := v], part) == Gather(init, values[k := v], part) + tail;
      assert Gather(keys, values, part) == Gather(init, values, part) + tail;
    }
  }

  /** Pushing a row onto a district's list adds it, once, to the rows of
      the district map. */
  lemma FlattenDistrictsAdd(districtMap: DistrictMap, item: MahallahData)
    requires districtMap.Valid()
    ensures var updated := districtMap.Set(item.district, RowsOf(districtMap, item.district) + [item]);
      multiset(FlattenDistricts(updated)) == multiset(FlattenDistricts(districtMap)) + multiset{item}
  {
    var d := item.district;
    var rows := RowsOf(districtMap, d);
    if d in districtMap.values {
      GatherGrow(districtMap.keys, districtMap.values, Itself, d, rows + [item], [item]);
    } else {
      GatherNew(districtMap.keys, districtMap.values, Itself, d, rows + [item]);
    }
  }

  /** Adding a row adds it, once, to the flattened rows. */
  lemma FlattenAdd(regionMap: RegionMap, item: MahallahData)
    requires regionMap.Valid() && DistrictsOf(regionMap, item.region).Valid()
    ensures multiset(Flatten(Add(regionMap, item))) == multiset(Flatten(regionMap)) + multiset{item}
  {
    var r := item.region;
    var districtMap := DistrictsOf(regionMap, r);
    var updated := districtMap.Set(item.district, RowsOf(districtMap, item.district) + [item]);
    assert multiset(FlattenDistricts(updated)) == multiset(FlattenDistricts(districtMap)) + multiset{item} by {
      FlattenDistrictsAdd(districtMap, item);
    }
    assert Add(regionMap, item) == regionMap.Set(r, updated);
    if r in regionMap.values {
      GatherGrow(regionMap.keys, regionMap.values, FlattenDistricts, r, updated, [item]);
    } else {
      assert FlattenDistricts(updated) == [item] by {
        FlattenDistrictsAdd(districtMap, item);
        assert |FlattenDistricts(updated)| == 1;
      }
      GatherNew(regionMap.keys, regionMap.values, FlattenDistricts, r, updated);
    }
  }

  lemma FlattenStep(regionMap: RegionMap, items: seq<MahallahData>, item: MahallahData)
    requires Describes(regionMap, items)
    requires multiset(Flatten(regionMap)) == multiset(items)
    ensures multiset(Flatten(Add(regionMap, item))) == multiset(items + [item])
  {
    DistrictsOfDescribe(regionMap, items, item.region);
    FlattenAdd(regionMap, item);
  }

  /** Every kept row lands exactly once in the grouping. */
  lemma {:induction false} FlattenGrouped(items: seq<MahallahData>)
    ensures multiset(Flatten(Grouped(items))) == multiset(items)
  {
    if items != [] {
      var init, last := items[..|items| - 1], items[|items| - 1];
      assert multiset(Flatten(Add(Grouped(init), last))) == multiset(init + [last]) by {
        FlattenGrouped(init);
        GroupedDescribes(init);
        FlattenStep(Grouped(init), init, last);
      }
      InitLast(items);
    }
  }

  /** Adding a row adds a district exactly when its (region, district) pair
      is new. */
  lemma TotalDistrictsAdd(regionMap: RegionMap, items: seq<MahallahData>, item: MahallahData)
    requires Describes(regionMap, items)
    ensures TotalDistricts(Add(regionMap, item))
         == TotalDistricts(regionMap) + (if (item.region, item.district) in Pairs(items) then 0 else 1)
  {
    var r, d := item.region, item.district;
    var districtMap := DistrictsOf(regionMap, r);
    var updated := districtMap.Set(d, RowsOf(districtMap, d) + [item]);
    var extra := if d in districtMap.values then [] else [d];
    assert ((r, d) in Pairs(items) <==> d in districtMap.values) && districtMap.Valid()
        && (r in regionMap.values <==> r in regionMap.keys) by {
      DistrictsOfDescribe(regionMap, items, r);
      RowsOfDescribe(districtMap, items, r, d);
      PairsMembership(items, r, d);
    }
    assert updated.keys == districtMap.keys + extra;
    assert Add(regionMap, item) == regionMap.Set(r, updated);
    if r in regionMap.values {
      GatherGrow(regionMap.keys, regionMap.values, KeysOf, r, updated, extra);
    } else {
      assert districtMap.keys == [];
      GatherNew(regionMap.keys, regionMap.values, KeysOf, r, updated);
    }
  }

  /** One district per distinct (region, district) pair. */
  lemma {:induction false} TotalDistrictsGrouped(items: seq<MahallahData>)
    ensures TotalDistricts(Grouped(items)) == |FirstSeen(Pairs(items))|
  {
    if items != [] {
      var init, last := items[..|items| - 1], items[|items| - 1];
      TotalDistrictsGrouped(init);
      assert TotalDistricts(Grouped(items))
          == TotalDistricts(Grouped(init)) + (if (last.region, last.district) in Pairs(init) then 0 else 1) by {
        GroupedDescribes(init);
        TotalDistrictsAdd(Grouped(init), init, last);
      }
      InitLast(items);
      AppendOne(init, last, last.region, last.district);
      FirstSeenAppend(Pairs(init), (last.region, last.district));
    }
  }

  // ---------------------------------------------------------------------
  // The SQL lines

  /** One line of the script. */
  datatype Line =
    | Fixed(text: String)
    | Blank
    | Comment(text: String)
    | RegionInsert(name: String)
    | RegionVariable(slug: String)
    | DistrictInsert(name: String, regionSlug: String)
    | DistrictVariable(slug: String, name: String, regionSlug: String)
    | MahallahInsert(name: String, districtSlug: String, population: Option<int>)

  const RegionHead: String := "INSERT INTO Region (name) VALUES ('"
  const RegionTail: String := ") ON DUPLICATE KEY UPDATE name=name;"

  /** The text of a line, with `escape` applied to every quoted name. */
  function Render(line: Line, escape: String -> String): String {
    match line
    case Fixed(text) => text
    case Blank => ""
    case Comment(text) => "-- " + text
    case RegionInsert(name) => RegionHead + escape(name) + [Quote] + RegionTail
    case RegionVariable(slug) => "SET @region_" + slug + " = LAST_INSERT_ID();"
    case DistrictInsert(name, regionSlug) =>
      "INSERT INTO District (name, regionId) VALUES ('" + escape(name) + "', @region_" + regionSlug
      + ") ON DUPLICATE KEY UPDATE name=name;"
    case DistrictVariable(slug, name, regionSlug) =>
      "SET @district_" + slug + " = (SELECT id FROM District WHERE name = '" + escape(name)
      + "' AND regionId = @region_" + regionSlug + ");"
    case MahallahInsert(name, districtSlug, population) =>
      if population.Some? then
        "INSERT INTO Mahallah (name, districtId, population) VALUES ('" + escape(name) + "', @district_"
        + districtSlug + ", " + IntToString(population.value) + ") ON DUPLICATE KEY UPDATE name=name;"
      else
        "INSERT INTO Mahallah (name, districtId) VALUES ('" + escape(name) + "', @district_"
        + districtSlug + ") ON DUPLICATE KEY UPDATE name=name;"
  }

  lemma RegionTailHasNoQuote()
    ensures forall i :: 0 <= i < |RegionTail| ==> RegionTail[i] != Quote
  {
  }

  /** As written, the `INSERT` of a region named by a single backslash opens
      a literal that MySQL never sees closed. */
  lemma RegionInsertMisread()
    ensures Render(RegionInsert([Escaping.Backslash]), EscapeSql)
         == RegionHead + EscapeSql([Escaping.Backslash]) + [Quote] + RegionTail
    ensures ReadQuoted(EscapeSql([Escaping.Backslash]) + [Quote] + RegionTail) == None
  {
    RegionTailHasNoQuote();
    EscapeSqlMisreadByMysql(RegionTail);
  }

  /** Corrected, the literal of every region's `INSERT` holds exactly the
      region's name and closes right before the rest of the statement. */
  lemma RegionInsertReadsBack(name: String)
    ensures Render(RegionInsert(name), EscapeSqlCorrected)
         == RegionHead + EscapeSqlCorrected(name) + [Quote] + RegionTail
    ensures ReadQuoted(EscapeSqlCorrected(name) + [Quote] + RegionTail) == Some((name, RegionTail))
  {
    EscapeSqlCorrectedReadsBack(name, RegionTail);
  }

  /** `${mahallah.population}` is written only when the population is
      truthy: a finite, non-zero number. */
  function PopulationColumn(population: Option<Num>): Option<int> {
    if population.Some? && population.value.Truthy() then Some(population.value.value) else None
  }

  /** The population column of a kept row is present exactly when its first
      truthy population cell parses to a non-zero number; a numeric cell
      gives its own value, and text such as "0" gives no column. */
  lemma PopulationColumnOfRow(row: Row)
    requires Extract(row).Some?
    ensures var cell := FirstTruthy(row, PopulationColumns);
      var column := PopulationColumn(Extract(row).value.population);
      (column.Some? <==> cell.Some? && ParseInt(cell.value.AsString()).Truthy())
      && (cell.Some? && cell.value.Numeric? ==> column == Some(cell.value.n))
  {
    var cell := FirstTruthy(row, PopulationColumns);
    var population := Extract(row).value.population;
    assert population == if cell.Some? then Some(ParseInt(cell.value.AsString())) else None;
    if cell.Some? && cell.value.Numeric? {
      ParseIntOfIntToString(cell.value.n);
    }
  }

  function Header(generated: String): seq<Line> {
    [ Fixed("-- Mahallah ma'lumotlari (Excel'dan yaratilgan)"),
      Fixed("-- Auto-generated SQL script"),
      Fixed("-- Generated: " + generated),
      Fixed("-- Encoding: UTF-8"),
      Blank,
      Fixed("SET NAMES utf8mb4;"),
      Fixed("SET CHARACTER SET utf8mb4;"),
      Blank,
      Fixed("USE adliya;"),
      Blank,
      Fixed("-- Ma'lumotlarni kiritish"),
      Blank ]
  }

  const Footer: seq<Line> :=
    [ Fixed("-- Statistika"),
      Fixed("SELECT"),
      Fixed("    'Regions' as TableName,"),
      Fixed("    COUNT(*) as Count"),
      Fixed("FROM Region"),
      Fixed("UNION ALL"),
      Fixed("SELECT 'Districts', COUNT(*) FROM District"),
      Fixed("UNION ALL"),
      Fixed("SELECT 'Mahallahs', COUNT(*) FROM Mahallah;"),
      Blank ]

  function MahallahLine(mahallah: MahallahData, districtSlug: String): Line {
    MahallahInsert(mahallah.mahallah, districtSlug, PopulationColumn(mahallah.population))
  }

  /** One `INSERT` per row of a district, in the list's order. */
  function MahallahInserts(mahallahs: seq<MahallahData>, districtSlug: String): seq<Line> {
    if mahallahs == [] then []
    else MahallahInserts(mahallahs[..|mahallahs| - 1], districtSlug) + [MahallahLine(mahallahs[|mahallahs| - 1], districtSlug)]
  }

  function DistrictBlock(districtName: String, mahallahs: seq<MahallahData>, regionSlug: String): seq<Line> {
    var districtSlug := Slugify(districtName);
    [Comment(districtName + " mahallalari"), DistrictVariable(districtSlug, districtName, regionSlug)]
    + MahallahInserts(mahallahs, districtSlug) + [Blank]
  }

  function DistrictBlocks(keys: seq<String>, values: map<String, seq<MahallahData>>, regionSlug: String): seq<Line> {
    if keys == [] then []
    else
      var name := keys[|keys| - 1];
      DistrictBlocks(keys[..|keys| - 1], values, regionSlug)
      + DistrictBlock(name, if name in values then values[name] else [], regionSlug)
  }

  /** One `INSERT` per district of a region, in the map's order. */
  function DistrictInserts(keys: seq<String>, regionSlug: String): seq<Line> {
    if keys == [] then []
    else DistrictInserts(keys[..|keys| - 1], regionSlug) + [DistrictInsert(keys[|keys| - 1], regionSlug)]
  }

  function RegionBlock(regionName: String, districtMap: DistrictMap): seq<Line> {
    var regionSlug := Slugify(regionName);
    [Comment(regionName), RegionInsert(regionName), RegionVariable(regionSlug), Blank]
    + DistrictInserts(districtMap.keys, regionSlug) + [Blank]
    + DistrictBlocks(districtMap.keys, districtMap.values, regionSlug)
  }

  function RegionBlocks(keys: seq<String>, values: map<String, DistrictMap>): seq<Line> {
    if keys == [] then []
    else
      var name := keys[|keys| - 1];
      RegionBlocks(keys[..|keys| - 1], values)
      + RegionBlock(name, if name in values then values[name] else OrderedMap([], map[]))
  }

  /** The lines of the script, before the statistics are printed. */
  function Emission(regionMap: RegionMap, generated: String): seq<Line> {
    Header(generated) + RegionBlocks(regionMap.keys, regionMap.values) + Footer
  }

  lemma Regroup3<T>(a: seq<T>, b: seq<T>, c: seq<T>)
    ensures a + b + c == a + (b + c)
  {
  }

  lemma Regroup4<T>(a: seq<T>, b: seq<T>, c: seq<T>, d: seq<T>)
    ensures a + b + c + d == a + (b + c + d)
  {
  }

  lemma Regroup5<T>(a: seq<T>, b: seq<T>, c: seq<T>, d: seq<T>, e: seq<T>)
    ensures a + b + c + d + e == a + (b + c + d + e)
  {
  }

  lemma MahallahInsertsStep(mahallahs: seq<MahallahData>, k: nat, districtSlug: String)
    requires k < |mahallahs|
    ensures MahallahInserts(mahallahs[..k + 1], districtSlug)
         == MahallahInserts(mahallahs[..k], districtSlug) + [MahallahLine(mahallahs[k], districtSlug)]
  {
    assert mahallahs[..k + 1][..k] == mahallahs[..k];
  }

  lemma DistrictInsertsStep(keys: seq<String>, j: nat, regionSlug: String)
    requires j < |keys|
    ensures DistrictInserts(keys[..j + 1], regionSlug) == DistrictInserts(keys[..j], regionSlug) + [DistrictInsert(keys[j], regionSlug)]
  {
    assert keys[..j + 1][..j] == keys[..j];
  }

  lemma DistrictBlocksStep(keys: seq<String>, values: map<String, seq<MahallahData>>, j: nat, regionSlug: String)
    requires j < |keys| && keys[j] in values
    ensures DistrictBlocks(keys[..j + 1], values, regionSlug)
         == DistrictBlocks(keys[..j], values, regionSlug) + DistrictBlock(keys[j], values[keys[j]], regionSlug)
  {
    assert keys[..j + 1][..j] == keys[..j];
  }

  lemma RegionBlocksStep(keys: seq<String>, values: map<String, DistrictMap>, i: nat)
    requires i < |keys| && keys[i] in values
    ensures RegionBlocks(keys[..i + 1], values) == RegionBlocks(keys[..i], values) + RegionBlock(keys[i], values[keys[i]])
  {
    assert keys[..i + 1][..i] == keys[..i];
  }

  /** The lines of one district: its comment, its variable, one `INSERT`
      per row and a blank line. */
  method EmitDistrict(sqlLines: seq<Line>, districtName: String, mahallahs: seq<MahallahData>, regionSlug: String)
    returns (result: seq<Line>)
    ensures result == sqlLines + DistrictBlock(districtName, mahallahs, regionSlug)
  {
    var districtSlug := Slugify(districtName);
    ghost var head := [Comment(districtName + " mahallalari"), DistrictVariable(districtSlug, districtName, regionSlug)];
    result := sqlLines + [Comment(districtName + " mahallalari"), DistrictVariable(districtSlug, districtName, regionSlug)];
    for k := 0 to |mahallahs|
      invariant result == sqlLines + head + MahallahInserts(mahallahs[..k], districtSlug)
    {
      var mahallah := mahallahs[k];
      var line;
      if mahallah.population.Some? && mahallah.population.value.Truthy() {
        line := MahallahInsert(mahallah.mahallah, districtSlug, Some(mahallah.population.value.value));
      } else {
        line := MahallahInsert(mahallah.mahallah, districtSlug, None);
      }
      assert line == MahallahLine(mahallah, districtSlug);
      Regroup3(sqlLines + head, MahallahInserts(mahallahs[..k], districtSlug), [line]);
      result := result + [line];
      MahallahInsertsStep(mahallahs, k, districtSlug);
    }
    assert mahallahs[..|mahallahs|] == mahallahs;
    result := result + [Blank];
    Regroup4(sqlLines, head, MahallahInserts(mahallahs, districtSlug), [Blank]);
  }

  /** The loop writing one `INSERT` per district of a region. */
  method EmitDistrictInserts(sqlLines: seq<Line>, keys: seq<String>, regionSlug: String) returns (result: seq<Line>)
    ensures result == sqlLines + DistrictInserts(keys, regionSlug)
  {
    result := sqlLines;
    for j := 0 to |keys|
      invariant result == sqlLines + DistrictInserts(keys[..j], regionSlug)
    {
      Regroup3(sqlLines, DistrictInserts(keys[..j], regionSlug), [DistrictInsert(keys[j], regionSlug)]);
      result := result + [DistrictInsert(keys[j], regionSlug)];
      DistrictInsertsStep(keys, j, regionSlug);
    }
    assert keys[..|keys|] == keys;
  }

  /** The loop writing the lines of each district of a region. */
  method EmitDistricts(sqlLines: seq<Line>, districtMap: DistrictMap, regionSlug: String) returns (result: seq<Line>)
    requires districtMap.Valid()
    ensures result == sqlLines + DistrictBlocks(districtMap.keys, districtMap.values, regionSlug)
  {
    var keys := districtMap.keys;
    result := sqlLines;
    for j := 0 to |keys|
      invariant result == sqlLines + DistrictBlocks(keys[..j], districtMap.values, regionSlug)
    {
      var districtName := keys[j];
      var mahallahs := districtMap.values[districtName];
      Regroup3(sqlLines, DistrictBlocks(keys[..j], districtMap.values, regionSlug), DistrictBlock(districtName, mahallahs, regionSlug));
      result := EmitDistrict(result, districtName, mahallahs, regionSlug);
      DistrictBlocksStep(keys, districtMap.values, j, regionSlug);
    }
    assert keys[..|keys|] == keys;
  }

  /** The lines of one region: its comment, `INSERT` and variable, one
      `INSERT` per district, then each district's lines. */
  method EmitRegion(sqlLines: seq<Line>, regionName: String, districtMap: DistrictMap) returns (result: seq<Line>)
    requires districtMap.Valid()
    ensures result == sqlLines + RegionBlock(regionName, districtMap)
  {
    var regionSlug := Slugify(regionName);
    var head := [Comment(regionName), RegionInsert(regionName), RegionVariable(regionSlug), Blank];
    result := EmitDistrictInserts(sqlLines + head, districtMap.keys, regionSlug);
    result := result + [Blank];
    result := EmitDistricts(result, districtMap, regionSlug);
    Regroup5(sqlLines, head, DistrictInserts(districtMap.keys, regionSlug), [Blank],
             DistrictBlocks(districtMap.keys, districtMap.values, regionSlug));
  }

  /** The emitting loops: the header, every region's lines, the statistics
      query. */
  method EmitSql(regionMap: RegionMap, generated: String) returns (sqlLines: seq<Line>)
    requires regionMap.Valid()
    requires forall r :: r in regionMap.values ==> regionMap.values[r].Valid()
    ensures sqlLines == Emission(regionMap, generated)
  {
    sqlLines := Header(generated);
    for i := 0 to |regionMap.keys|
      invariant sqlLines == Header(generated) + RegionBlocks(regionMap.keys[..i], regionMap.values)
    {
      var regionName := regionMap.keys[i];
      Regroup3(Header(generated), RegionBlocks(regionMap.keys[..i], regionMap.values), RegionBlock(regionName, regionMap.values[regionName]));
      sqlLines := EmitRegion(sqlLines, regionName, regionMap.values[regionName]);
      RegionBlocksStep(regionMap.keys, regionMap.values, i);
    }
    assert regionMap.keys[..|regionMap.keys|] == regionMap.keys;
    sqlLines := sqlLines + Footer;
  }

  // ---------------------------------------------------------------------
  // Counting the INSERT statements

  datatype Table = RegionTable | DistrictTable | MahallahTable

  predicate InsertsInto(line: Line, table: Table) {
    match line
    case RegionInsert(_) => table == RegionTable
    case DistrictInsert(_, _) => table == DistrictTable
    case MahallahInsert(_, _, _) => table == MahallahTable
    case _ => false
  }

  /** The number of lines inserting into `table`. */
  function InsertCount(lines: seq<Line>, table: Table): nat {
    if lines == [] then 0
    else InsertCount(lines[..|lines| - 1], table) + (if InsertsInto(lines[|lines| - 1], table) then 1 else 0)
  }

  lemma {:induction false} InsertCountAppend(a: seq<Line>, b: seq<Line>, table: Table)
    ensures InsertCount(a + b, table) == InsertCount(a, table) + InsertCount(b, table)
    decreases |b|
  {
    if b == [] {
      assert a + b == a;
    } else {
      var init := b[..|b| - 1];
      InsertCountAppend(a, init, table);
      assert (a + b)[..|a + b| - 1] == a + init;
    }
  }

  lemma {:induction false} NoInserts(lines: seq<Line>, table: Table)
    requires forall i :: 0 <= i < |lines| ==> !InsertsInto(lines[i], table)
    ensures InsertCount(lines, table) == 0
  {
    if lines != [] {
      NoInserts(lines[..|lines| - 1], table);
    }
  }

  lemma {:induction false} MahallahInsertsCount(mahallahs: seq<MahallahData>, districtSlug: String, table: Table)
    ensures InsertCount(MahallahInserts(mahallahs, districtSlug), table) == if table == MahallahTable then |mahallahs| else 0
  {
    if mahallahs != [] {
      var init := mahallahs[..|mahallahs| - 1];
      MahallahInsertsCount(init, districtSlug, table);
      InsertCountAppend(MahallahInserts(init, districtSlug), [MahallahLine(mahallahs[|mahallahs| - 1], districtSlug)], table);
    }
  }

  lemma {:induction false} DistrictInsertsCount(keys: seq<String>, regionSlug: String, table: Table)
    ensures InsertCount(DistrictInserts(keys, regionSlug), table) == if table == DistrictTable then |keys| else 0
  {
    if keys != [] {
      var init := keys[..|keys| - 1];
      DistrictInsertsCount(init, regionSlug, table);
      InsertCountAppend(DistrictInserts(init, regionSlug), [DistrictInsert(keys[|keys| - 1], regionSlug)], table);
    }
  }

  lemma DistrictBlockCount(districtName: String, mahallahs: seq<MahallahData>, regionSlug: String, table: Table)
    ensures InsertCount(DistrictBlock(districtName, mahallahs, regionSlug), table) == if table == MahallahTable then |mahallahs| else 0
  {
    var districtSlug := Slugify(districtName);
    var head := [Comment(districtName + " mahallalari"), DistrictVariable(districtSlug, districtName, regionSlug)];
    var inserts := MahallahInserts(mahallahs, districtSlug);
    MahallahInsertsCount(mahallahs, districtSlug, table);
    BetweenCount(head, inserts, [Blank], table);
  }

  /** Lines that insert nothing around a block leave its count alone. */
  lemma BetweenCount(head: seq<Line>, middle: seq<Line>, tail: seq<Line>, table: Table)
    requires forall i :: 0 <= i < |head| ==> !InsertsInto(head[i], table)
    requires forall i :: 0 <= i < |tail| ==> !InsertsInto(tail[i], table)
    ensures InsertCount(head + middle + tail, table) == InsertCount(middle, table)
  {
    InsertCountAppend(head + middle, tail, table);
    InsertCountAppend(head, middle, table);
    NoInserts(head, table);
    NoInserts(tail, table);
  }

  lemma {:induction false} DistrictBlocksCount(keys: seq<String>, values: map<String, seq<MahallahData>>, regionSlug: String, table: Table)
    ensures InsertCount(DistrictBlocks(keys, values, regionSlug), table)
         == if table == MahallahTable then |Gather(keys, values, Itself)| else 0
  {
    if keys != [] {
      var init, name := keys[..|keys| - 1], keys[|keys| - 1];
      var mahallahs := if name in values then values[name] else [];
      DistrictBlocksCount(init, values, regionSlug, table);
      InsertCountAppend(DistrictBlocks(init, values, regionSlug), DistrictBlock(name, mahallahs, regionSlug), table);
      DistrictBlockCount(name, mahallahs, regionSlug, table);
    }
  }

  lemma RegionHeadCount(regionName: String, regionSlug: String, table: Table)
    ensures InsertCount([Comment(regionName), RegionInsert(regionName), RegionVariable(regionSlug), Blank], table)
         == if table == RegionTable then 1 else 0
  {
    var head := [Comment(regionName), RegionInsert(regionName), RegionVariable(regionSlug), Blank];
    InsertCountAppend([Comment(regionName)], [RegionInsert(regionName)], table);
    InsertCountAppend([Comment(regionName), RegionInsert(regionName)], [RegionVariable(regionSlug), Blank], table);
    NoInserts([RegionVariable(regionSlug), Blank], table);
    NoInserts([Comment(regionName)], table);
    assert [Comment(regionName), RegionInsert(regionName)] + [RegionVariable(regionSlug), Blank] == head;
  }

  lemma HeaderHasNoInserts(generated: String, table: Table)
    ensures InsertCount(Header(generated), table) == 0
  {
    NoInserts(Header(generated), table);
  }

  lemma FooterHasNoInserts(table: Table)
    ensures InsertCount(Footer, table) == 0
  {
    NoInserts(Footer, table);
  }

  lemma RegionBlockCount(regionName: String, districtMap: DistrictMap, table: Table)
    ensures InsertCount(RegionBlock(regionName, districtMap), table)
         == match table
            case RegionTable => 1
            case DistrictTable => |districtMap.keys|
            case MahallahTable => |FlattenDistricts(districtMap)|
  {
    var regionSlug := Slugify(regionName);
    var head := [Comment(regionName), RegionInsert(regionName), RegionVariable(regionSlug), Blank];
    var inserts := DistrictInserts(districtMap.keys, regionSlug);
    var blocks := DistrictBlocks(districtMap.keys, districtMap.values, regionSlug);
    InsertCountAppend(head + inserts + [Blank], blocks, table);
    InsertCountAppend(head + inserts, [Blank], table);
    InsertCountAppend(head, inserts, table);
    RegionHeadCount(regionName, regionSlug, table);
    NoInserts([Blank], table);
    DistrictInsertsCount(districtMap.keys, regionSlug, table);
    DistrictBlocksCount(districtMap.keys, districtMap.values, regionSlug, table);
  }

  lemma {:induction false} RegionBlocksCount(keys: seq<String>, values: map<String, DistrictMap>, table: Table)
    ensures InsertCount(RegionBlocks(keys, values), table)
         == match table
            case RegionTable => |keys|
            case DistrictTable => |Gather(keys, values, KeysOf)|
            case MahallahTable => |Gather(keys, values, FlattenDistricts)|
  {
    if keys != [] {
      var init, name := keys[..|keys| - 1], keys[|keys| - 1];
      var districtMap := if name in values then values[name] else OrderedMap([], map[]);
      RegionBlocksCount(init, values, table);
      InsertCountAppend(RegionBlocks(init, values), RegionBlock(name, districtMap), table);
      RegionBlockCount(name, districtMap, table);
    }
  }

  /** The emitted script has one region `INSERT` per region key, one
      district `INSERT` per district key, and one mahallah `INSERT` per row
      held in the map. */
  lemma EmissionCounts(regionMap: RegionMap, generated: String, table: Table)
    ensures InsertCount(Emission(regionMap, generated), table)
         == match table
            case RegionTable => |regionMap.keys|
            case DistrictTable => TotalDistricts(regionMap)
            case MahallahTable => |Flatten(regionMap)|
  {
    var blocks := RegionBlocks(regionMap.keys, regionMap.values);
    InsertCountAppend(Header(generated) + blocks, Footer, table);
    InsertCountAppend(Header(generated), blocks, table);
    HeaderHasNoInserts(generated, table);
    FooterHasNoInserts(table);
    RegionBlocksCount(regionMap.keys, regionMap.values, table);
  }

  /** One region `INSERT` per distinct region, one district `INSERT` per
      distinct (region, district) pair, one mahallah `INSERT` per kept row. */
  lemma GeneratedCounts(items: seq<MahallahData>, generated: String)
    ensures InsertCount(Emission(Grouped(items), generated), RegionTable) == |FirstSeen(Regions(items))|
    ensures InsertCount(Emission(Grouped(items), generated), DistrictTable) == |FirstSeen(Pairs(items))|
    ensures InsertCount(Emission(Grouped(items), generated), MahallahTable) == |items|
  {
    var regionMap := Grouped(items);
    EmissionCounts(regionMap, generated, RegionTable);
    EmissionCounts(regionMap, generated, DistrictTable);
    EmissionCounts(regionMap, generated, MahallahTable);
    GroupedDescribes(items);
    TotalDistrictsGrouped(items);
    FlattenGrouped(items);
    assert |multiset(Flatten(regionMap))| == |multiset(items)|;
  }

  /** The script end to end: the kept rows are collected, grouped and
      emitted, and the three reported counts are those of the emitted
      `INSERT` statements. */
  method GenerateSqlScript(rows: seq<Row>, generated: String)
    returns (sqlLines: seq<Line>, regionCount: nat, districtCount: nat, mahallahCount: nat)
    ensures sqlLines == Emission(Grouped(Kept(rows)), generated)
    ensures regionCount == InsertCount(sqlLines, RegionTable) == |FirstSeen(Regions(Kept(rows)))|
    ensures districtCount == InsertCount(sqlLines, DistrictTable) == |FirstSeen(Pairs(Kept(rows)))|
    ensures mahallahCount == InsertCount(sqlLines, MahallahTable) == |Kept(rows)|
  {
    var mahallahsData := CollectEntries(rows);
    var regionMap := GroupByRegion(mahallahsData);
    GroupedDescribes(mahallahsData);
    sqlLines := EmitSql(regionMap, generated);
    regionCount := |regionMap.keys|;
    districtCount := TotalDistricts(regionMap);
    mahallahCount := |mahallahsData|;
    EmissionCounts(regionMap, generated, RegionTable);
    EmissionCounts(regionMap, generated, DistrictTable);
    GeneratedCounts(mahallahsData, generated);
  }
}
