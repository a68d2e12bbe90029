/** The sheet rows both pipeline scripts read from `out.json`, and the video links in them. */
module Rows {
  import opened Text

  /** A JSON scalar as `json.load` gives it, floating-point numbers excepted. */
  datatype Value = Null | Bool(b: bool) | Int(i: int) | Str(s: string)

  /** A row object: column name to cell. */
  type Row = map<string, Value>

  /** An element of the top-level array: a row object, or anything else (kept as is). */
  datatype Item = Record(row: Row) | Other(v: Value)

  /** Python truthiness. */
  predicate Truthy(v: Value) {
    match v
    case Null => false
    case Bool(b) => b
    case Int(i) => i != 0
    case Str(s) => s != ""
  }

  /** `str(v or "")`. */
  function PyStr(v: Value): (r: string)
    ensures Truthy(v) <==> r != ""
    ensures v.Str? ==> r == v.s
  {
    if !Truthy(v) then ""
    else match v
      case Str(s) => s
      case Bool(_) => "True"
      case Int(i) => IntToString(i)
      case Null => ""
  }

  /** `row.get(key)`, with JSON null for a missing key. */
  function Get(row: Row, key: string): (r: Value)
    ensures key !in row ==> r == Null
    ensures key in row ==> r == row[key]
  {
    if key in row then row[key] else Null
  }

  /** `normalize_url(str(row.get(field, "") or ""))`, for `canon` the normaliser
      (`UrlCanon.Normalizer`; kept a parameter so that proofs about rows and links do not
      unfold the URL rewriting). */
  function LinkUrl(row: Row, field: string, canon: string -> string): string {
    canon(PyStr(Get(row, field)))
  }

  /** A non-empty link key, with the row it was found in. */
  type Link = (string, Row)

  /** The links of one row, field by field; blank cells give none. */
  function RowLinks(row: Row, fields: seq<string>, canon: string -> string): (r: seq<Link>)
    ensures |r| <= |fields|
    ensures forall l :: l in r ==> l.0 != "" && l.1 == row
    decreases |fields|
  {
    if fields == [] then []
    else
      var u := LinkUrl(row, fields[|fields| - 1], canon);
      RowLinks(row, fields[..|fields| - 1], canon) + (if u != "" then [(u, row)] else [])
  }

  /** The links of all rows in order; non-object items give none. */
  function Links(items: seq<Item>, fields: seq<string>, canon: string -> string): (r: seq<Link>)
    ensures forall l :: l in r ==> l.0 != ""
    decreases |items|
  {
    if items == [] then []
    else
      var it := items[|items| - 1];
      Links(items[..|items| - 1], fields, canon)
      + (if it.Record? then RowLinks(it.row, fields, canon) else [])
  }

  predicate NoDup(s: seq<string>) {
    forall i, j :: 0 <= i < j < |s| ==> s[i] != s[j]
  }

  /** The distinct URLs among `links`. */
  function Seen(links: seq<Link>): set<string>
    decreases |links|
  {
    if links == [] then {} else Seen(links[..|links| - 1]) + {links[|links| - 1].0}
  }

  /** Every field whose cell normalises to a non-empty key contributes that key ... */
  lemma {:induction false} RowLinksComplete(row: Row, fields: seq<string>, canon: string -> string, i: nat)
    requires i < |fields| && LinkUrl(row, fields[i], canon) != ""
    ensures (LinkUrl(row, fields[i], canon), row) in RowLinks(row, fields, canon)
    decreases |fields|
  {
    var n := |fields| - 1;
    if i < n {
      var init := fields[..n];
      assert init[i] == fields[i];
      RowLinksComplete(row, init, canon, i);
    }
  }

  /** ... and every link of a row comes from one of the fields. */
  lemma {:induction false} RowLinksSound(row: Row, fields: seq<string>, canon: string -> string, l: Link)
    requires l in RowLinks(row, fields, canon)
    ensures exists i :: 0 <= i < |fields| && LinkUrl(row, fields[i], canon) == l.0
    decreases |fields|
  {
    var n := |fields| - 1;
    var init := fields[..n];
    if l in RowLinks(row, init, canon) {
      RowLinksSound(row, init, canon, l);
      var i :| 0 <= i < n && LinkUrl(row, init[i], canon) == l.0;
      assert fields[i] == init[i];
    } else {
      assert LinkUrl(row, fields[n], canon) == l.0;
    }
  }

  /** The links of every object row are links of the whole list ... */
  lemma {:induction false} LinksComplete(items: seq<Item>, fields: seq<string>, canon: string -> string,
                                        i: nat, l: Link)
    requires i < |items| && items[i].Record? && l in RowLinks(items[i].row, fields, canon)
    ensures l in Links(items, fields, canon)
    decreases |items|
  {
    var n := |items| - 1;
    if i < n {
      var init := items[..n];
      assert init[i] == items[i];
      LinksComplete(init, fields, canon, i, l);
    }
  }

  /** ... and every link of the whole list comes from an object row. */
  lemma {:induction false} LinksSound(items: seq<Item>, fields: seq<string>, canon: string -> string, l: Link)
    requires l in Links(items, fields, canon)
    ensures exists i :: 0 <= i < |items| && items[i].Record? && l in RowLinks(items[i].row, fields, canon)
    decreases |items|
  {
    var n := |items| - 1;
    var init := items[..n];
    if l in Links(init, fields, canon) {
      LinksSound(init, fields, canon, l);
      var i :| 0 <= i < n && init[i].Record? && l in RowLinks(init[i].row, fields, canon);
      assert items[i] == init[i];
    } else {
      assert items[n].Record? && l in RowLinks(items[n].row, fields, canon);
    }
  }
}
