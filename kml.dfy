/**
  Cellular-csvtokml.py: every CSV file of a directory becomes a KML file
  beside it, with one placemark per row carrying the row's `id` as name
  and description and (`trilong`, `trilat`) as coordinates.

  A KML file is modelled as the sequence of strings passed to `write`, in
  order. Reading and parsing a CSV file is left to a parameter that gives
  the rows of each path.
 */
module Kml {
  import opened FetchCommon
  import opened PosixPath

  /** The three columns `csv_to_kml` reads from a row, as text. */
  datatype CsvRow = CsvRow(id: string, trilat: string, trilong: string)

  const XmlDecl: string := "<?xml version=\"1.0\" encoding=\"UTF-8\"?>\n"
  const KmlOpen: string := "<kml xmlns=\"http://www.opengis.net/kml/2.2\">\n"
  const DocOpen: string := "<Document>\n"
  const DocClose: string := "</Document>\n"
  const KmlClose: string := "</kml>\n"

  const PlacemarkOpen: string := "<Placemark>\n"
  const NameOpen: string := "<name>"
  const NameClose: string := "</name>\n"
  const DescOpen: string := "<description>ID: "
  const DescClose: string := "</description>\n"
  const PointOpen: string := "<Point>\n"
  const CoordOpen: string := "<coordinates>"
  const CoordClose: string := ",0</coordinates>\n"
  const PointClose: string := "</Point>\n"
  const PlacemarkClose: string := "</Placemark>\n"

  /** What is written before the first row and after the last. */
  const Prolog: seq<string> := [XmlDecl, KmlOpen, DocOpen]
  const Epilog: seq<string> := [DocClose, KmlClose]

  /** The seven writes for one row. */
  function Placemark(row: CsvRow): seq<string>
  {
    [PlacemarkOpen,
     NameOpen + row.id + NameClose,
     DescOpen + row.id + DescClose,
     PointOpen,
     CoordOpen + row.trilong + "," + row.trilat + CoordClose,
     PointClose,
     PlacemarkClose]
  }

  /** The placemarks of all rows, in row order. */
  function Placemarks(rows: seq<CsvRow>): seq<string>
    decreases |rows|
  {
    if |rows| == 0 then [] else Placemarks(rows[..|rows| - 1]) + Placemark(rows[|rows| - 1])
  }

  /** Every write of `csv_to_kml` for the rows of one CSV file. */
  function KmlLines(rows: seq<CsvRow>): seq<string>
  {
    Prolog + Placemarks(rows) + Epilog
  }

  /** `csv_to_kml`: the prolog, seven writes per row, the epilog. */
  method CsvToKml(rows: seq<CsvRow>) returns (out: seq<string>)
    ensures out == KmlLines(rows)
  {
    out := [XmlDecl];
    out := out + [KmlOpen];
    out := out + [DocOpen];
    for i := 0 to |rows|
      invariant out == Prolog + Placemarks(rows[..i])
    {
      var row := rows[i];
      assert rows[..i + 1][..i] == rows[..i];
      out := out + [PlacemarkOpen];
      out := out + [NameOpen + row.id + NameClose];
      out := out + [DescOpen + row.id + DescClose];
      out := out + [PointOpen];
      out := out + [CoordOpen + row.trilong + "," + row.trilat + CoordClose];
      out := out + [PointClose];
      out := out + [PlacemarkClose];
    }
    assert rows[..|rows|] == rows;
    out := out + [DocClose];
    out := out + [KmlClose];
  }

  /** The placemarks are seven writes per row, row `i` in block `i`. */
  lemma {:induction false} PlacemarksLayout(rows: seq<CsvRow>)
    ensures |Placemarks(rows)| == 7 * |rows|
    ensures forall i | 0 <= i < |rows| :: Placemarks(rows)[7 * i..7 * i + 7] == Placemark(rows[i])
    decreases |rows|
  {
    if |rows| > 0 {
      var init := rows[..|rows| - 1];
      PlacemarksLayout(init);
      var p := Placemarks(rows);
      assert p == Placemarks(init) + Placemark(rows[|rows| - 1]);
      forall i | 0 <= i < |rows| ensures p[7 * i..7 * i + 7] == Placemark(rows[i]) {
        if i < |rows| - 1 {
          assert p[7 * i..7 * i + 7] == Placemarks(init)[7 * i..7 * i + 7];
          assert init[i] == rows[i];
        } else {
          assert p[7 * i..7 * i + 7] == Placemark(rows[|rows| - 1]);
        }
      }
    }
  }

  /** The layout of a KML file: 5 + 7n writes, the prolog, row `i`'s
      placemark at `3 + 7 * i`, the epilog. */
  lemma KmlLayout(rows: seq<CsvRow>)
    ensures var k := KmlLines(rows);
            && |k| == 5 + 7 * |rows|
            && k[..3] == Prolog
            && k[|k| - 2..] == Epilog
            && k[3..|k| - 2] == Placemarks(rows)
            && forall i | 0 <= i < |rows| :: k[3 + 7 * i..10 + 7 * i] == Placemark(rows[i])
  {
    PlacemarksLayout(rows);
    var k := KmlLines(rows);
    var p := Placemarks(rows);
    assert k[3..|k| - 2] == p;
    forall i | 0 <= i < |rows| ensures k[3 + 7 * i..10 + 7 * i] == Placemark(rows[i]) {
      assert k[3 + 7 * i..10 + 7 * i] == p[7 * i..7 * i + 7];
    }
  }

  /** `x` with `open` in front and `close` behind removed, if it has them. */
  function Unwrap(x: string, open: string, close: string): (r: Option<string>)
    ensures r.Some? ==> x == open + r.value + close
  {
    if |x| >= |open| + |close| && x[..|open|] == open && x[|x| - |close|..] == close then
      assert x == x[..|open|] + x[|open|..|x| - |close|] + x[|x| - |close|..];
      Some(x[|open|..|x| - |close|])
    else None
  }

  lemma UnwrapOf(open: string, mid: string, close: string)
    ensures Unwrap(open + mid + close, open, close) == Some(mid)
  {
    var x := open + mid + close;
    assert x[..|open|] == open;
    assert x[|x| - |close|..] == close;
    assert x[|open|..|x| - |close|] == mid;
  }

  /** A reader for one placemark: the name, the description (which must
      repeat the name) and the coordinates `lon,lat,0` split at the first
      comma. */
  function ReadPlacemark(b: seq<string>): Option<CsvRow>
    requires |b| == 7
  {
    var name := Unwrap(b[1], NameOpen, NameClose);
    var desc := Unwrap(b[2], DescOpen, DescClose);
    var coords := Unwrap(b[4], CoordOpen, CoordClose);
    if b[0] != PlacemarkOpen || b[3] != PointOpen || b[5] != PointClose || b[6] != PlacemarkClose then None
    else if name.None? || desc != name || coords.None? then None
    else
      var lon := SplitHead(coords.value, ',');
      if |lon| == |coords.value| then None
      else Some(CsvRow(name.value, coords.value[|lon| + 1..], lon))
  }

  /** A reader for the placemarks of a body of 7n writes. */
  function ReadPlacemarks(body: seq<string>): Option<seq<CsvRow>>
    decreases |body|
  {
    if |body| == 0 then Some([])
    else if |body| < 7 then None
    else
      match ReadPlacemarks(body[..|body| - 7])
      case None => None
      case Some(init) =>
        match ReadPlacemark(body[|body| - 7..])
        case None => None
        case Some(row) => Some(init + [row])
  }

  /** A reader for a whole KML file as `csv_to_kml` writes it. */
  function ReadKml(k: seq<string>): Option<seq<CsvRow>>
  {
    if |k| < 5 || k[..3] != Prolog || k[|k| - 2..] != Epilog then None
    else ReadPlacemarks(k[3..|k| - 2])
  }

  /** The coordinates field separates longitude from latitude at the
      first comma, so it can be read back only if the longitude has none. */
  predicate PlainLongitude(row: CsvRow)
  {
    forall i | 0 <= i < |row.trilong| :: row.trilong[i] != ','
  }

  lemma PlacemarkRoundTrip(row: CsvRow)
    requires PlainLongitude(row)
    ensures ReadPlacemark(Placemark(row)) == Some(row)
  {
    var b := Placemark(row);
    UnwrapOf(NameOpen, row.id, NameClose);
    UnwrapOf(DescOpen, row.id, DescClose);
    var c := row.trilong + "," + row.trilat;
    CoordLine(row.trilong, row.trilat);
    UnwrapOf(CoordOpen, c, CoordClose);
    assert c == row.trilong + [','] + row.trilat;
    SplitHeadOf(row.trilong, ',', row.trilat);
    assert c[|row.trilong| + 1..] == row.trilat;
  }

  /** Reading a body that ends in one more block of seven. */
  lemma ReadPlacemarksSnoc(body: seq<string>, block: seq<string>)
    requires |block| == 7
    ensures ReadPlacemarks(body + block) ==
              match ReadPlacemarks(body)
              case None => None
              case Some(init) =>
                match ReadPlacemark(block)
                case None => None
                case Some(row) => Some(init + [row])
  {
    var b := body + block;
    assert b[..|b| - 7] == body && b[|b| - 7..] == block;
  }

  /** A block that reads as a row, after a body that reads as rows. */
  lemma ReadPlacemarksAppend(body: seq<string>, init: seq<CsvRow>, block: seq<string>, row: CsvRow)
    requires ReadPlacemarks(body) == Some(init)
    requires |block| == 7 && ReadPlacemark(block) == Some(row)
    ensures ReadPlacemarks(body + block) == Some(init + [row])
  {
    ReadPlacemarksSnoc(body, block);
  }

  lemma {:induction false} PlacemarksRoundTrip(rows: seq<CsvRow>)
    requires forall i | 0 <= i < |rows| :: PlainLongitude(rows[i])
    ensures ReadPlacemarks(Placemarks(rows)) == Some(rows)
    decreases |rows|
  {
    if |rows| > 0 {
      var init := rows[..|rows| - 1];
      var last := rows[|rows| - 1];
      PlacemarksRoundTrip(init);
      PlacemarkRoundTrip(last);
      ReadPlacemarksAppend(Placemarks(init), init, Placemark(last), last);
      assert init + [last] == rows;
    }
  }

  /** Reading back a written KML file gives the rows it was written from,
      in order, as long as no longitude holds a comma. */
  lemma KmlRoundTrip(rows: seq<CsvRow>)
    requires forall i | 0 <= i < |rows| :: PlainLongitude(rows[i])
    ensures ReadKml(KmlLines(rows)) == Some(rows)
  {
    KmlLayout(rows);
    PlacemarksRoundTrip(rows);
  }

  lemma CoordLine(lon: string, lat: string)
    ensures CoordOpen + lon + "," + lat + CoordClose == CoordOpen + (lon + "," + lat) + CoordClose
  {
  }

  /** A comma in a longitude makes two different rows write the same file. */
  lemma CommaAmbiguity()
    ensures CsvRow("n", "3", "1,2") != CsvRow("n", "2,3", "1")
    ensures KmlLines([CsvRow("n", "3", "1,2")]) == KmlLines([CsvRow("n", "2,3", "1")])
  {
    var r1 := CsvRow("n", "3", "1,2");
    var r2 := CsvRow("n", "2,3", "1");
    assert r1.trilong + "," + r1.trilat == "1,2,3" == r2.trilong + "," + r2.trilat;
    CoordLine(r1.trilong, r1.trilat);
    CoordLine(r2.trilong, r2.trilat);
    assert Placemark(r1) == Placemark(r2);
    assert Placemarks([r1]) == Placemarks([r1][..0]) + Placemark(r1);
    assert Placemarks([r2]) == Placemarks([r2][..0]) + Placemark(r2);
  }

  /** `file_name.endswith('.csv')`. */
  predicate IsCsvName(name: string)
  {
    |name| >= 4 && name[|name| - 4..] == ".csv"
  }

  /** `os.path.splitext(file_name)[0] + '.kml'`. */
  function KmlName(name: string): string
  {
    SplitExt(name).0 + ".kml"
  }

  /** A CSV name from a directory listing (no '/') loses its ".csv" for
      ".kml", unless everything before ".csv" is dots: then splitext finds
      no extension and ".kml" is added to the whole name. */
  lemma KmlNameOf(stem: string)
    requires forall i | 0 <= i < |stem| :: stem[i] != '/'
    ensures IsCsvName(stem + ".csv")
    ensures KmlName(stem + ".csv") == if NonDotBetween(stem, 0, |stem|) then stem + ".kml" else stem + ".csv" + ".kml"
  {
    assert (stem + ".csv")[|stem + ".csv"| - 4..] == ".csv";
    RFindUnique(stem, '/', -1);
    SplitExtOf(stem, ".csv");
  }

  /** "a.csv" becomes "a.kml". */
  lemma KmlNamePlain()
    ensures KmlName("a.csv") == "a.kml"
  {
    KmlNameOf("a");
    assert "a"[0] != '.';
    assert "a" + ".csv" == "a.csv";
  }

  /** ".csv" has no extension for splitext and becomes ".csv.kml". */
  lemma KmlNameHidden()
    ensures KmlName(".csv") == ".csv.kml"
  {
    KmlNameOf("");
    assert !NonDotBetween("", 0, 0);
    assert "" + ".csv" == ".csv";
    assert ".csv" + ".kml" == ".csv.kml";
  }

  /** "..csv" is all dots before ".csv" and becomes "..csv.kml". */
  lemma KmlNameDots()
    ensures KmlName("..csv") == "..csv.kml"
  {
    KmlNameOf(".");
    assert !NonDotBetween(".", 0, 1);
    assert "." + ".csv" == "..csv";
    assert "..csv" + ".kml" == "..csv.kml";
  }

  /** "..csv" and "..csv.csv" both become "..csv.kml", so converting the
      second overwrites what converting the first wrote. */
  lemma KmlNameClash()
    ensures "..csv" != "..csv.csv"
    ensures KmlName("..csv") == "..csv.kml" == KmlName("..csv.csv")
  {
    KmlNameDots();
    KmlNameOf("..csv");
    assert "..csv"[2] != '.';
    assert NonDotBetween("..csv", 0, 5);
    assert "..csv" + ".csv" == "..csv.csv";
    assert "..csv" + ".kml" == "..csv.kml";
    assert |"..csv"| != |"..csv.csv"|;
  }

  /** One conversion: the KML path and what is written to it. */
  datatype Conversion = Conversion(kmlPath: string, lines: seq<string>)

  /** The conversion `convert_csv_files_to_kml` makes for one listed name,
      if it is a CSV name; `read` gives the rows of a CSV path. */
  function ConversionOf(dir: string, name: string, read: string -> seq<CsvRow>): Option<Conversion>
  {
    if IsCsvName(name) then Some(Conversion(Join(dir, KmlName(name)), KmlLines(read(Join(dir, name)))))
    else None
  }

  /** The CSV names of a listing, in listing order. */
  function CsvNames(listing: seq<string>): (r: seq<string>)
    ensures forall i | 0 <= i < |r| :: IsCsvName(r[i])
    decreases |listing|
  {
    if |listing| == 0 then []
    else CsvNames(listing[..|listing| - 1]) + (if IsCsvName(listing[|listing| - 1]) then [listing[|listing| - 1]] else [])
  }

  /** The conversions made for a listing, in listing order. */
  function Conversions(dir: string, listing: seq<string>, read: string -> seq<CsvRow>): seq<Conversion>
    decreases |listing|
  {
    if |listing| == 0 then []
    else
      var last := listing[|listing| - 1];
      Conversions(dir, listing[..|listing| - 1], read)
        + (match ConversionOf(dir, last, read) case Some(cv) => [cv] case None => [])
  }

  /** `convert_csv_files_to_kml` over the names `os.listdir` gave. */
  method ConvertCsvFilesToKml(dir: string, listing: seq<string>, read: string -> seq<CsvRow>)
    returns (done: seq<Conversion>)
    ensures done == Conversions(dir, listing, read)
  {
    done := [];
    for i := 0 to |listing|
      invariant done == Conversions(dir, listing[..i], read)
    {
      var name := listing[i];
      assert listing[..i + 1][..i] == listing[..i];
      if IsCsvName(name) {
        var csvFile := Join(dir, name);
        var kmlFile := Join(dir, KmlName(name));
        var lines := CsvToKml(read(csvFile));
        done := done + [Conversion(kmlFile, lines)];
      }
    }
    assert listing[..|listing|] == listing;
  }

  /** One conversion per CSV name, in listing order: the `i`th conversion
      is that of the `i`th CSV name; other names are skipped. */
  lemma {:induction false} ConversionsPerCsvName(dir: string, listing: seq<string>, read: string -> seq<CsvRow>)
    ensures var c := Conversions(dir, listing, read); var names := CsvNames(listing);
            |c| == |names| && forall i | 0 <= i < |names| :: Some(c[i]) == ConversionOf(dir, names[i], read)
    decreases |listing|
  {
    if |listing| > 0 {
      ConversionsPerCsvName(dir, listing[..|listing| - 1], read);
    }
  }

  /** Every CSV name of the listing is converted, in order, and nothing
      else is: a name is among `CsvNames` exactly when it is listed and is a
      CSV name. */
  lemma {:induction false} CsvNamesExact(listing: seq<string>)
    ensures forall n :: n in CsvNames(listing) <==> n in listing && IsCsvName(n)
    ensures |CsvNames(listing)| <= |listing|
    decreases |listing|
  {
    if |listing| > 0 {
      var init := listing[..|listing| - 1];
      CsvNamesExact(init);
      assert listing == init + [listing[|listing| - 1]];
    }
  }
}
