// The lookups and the physical-topology edits of HenParser
// (lib/auxiliary/henparser.py): filtering the parsed testbed elements by
// type and status, and adding, deleting and re-marking the entries of the
// main physical topology file before rewriting it. The XML parsing is an
// input: the parsed tables, and the parsed entry list or None when the file
// could not be read.

module HenParser {
  import opened Common

  const NODE_TYPES: seq<string> := ["server", "computer", "mote", "serial", "powerswitch", "switch", "router",
                                    "serviceprocessor", "sensor", "kvm", "virtualcomputer"]
  const INFRASTRUCTURE_TYPES: seq<string> := ["rack", "floorbox"]
  const FILENODE_TYPES: seq<string> := ["filesystem", "kernel", "loader"]
  const NODE_STATUSES: seq<string> := ["operational", "maintenance", "retired", "dead"]
  const INFRASTRUCTURE_STATUSES: seq<string> := ["operational", "maintenance", "retired", "dead"]
  const TESTBEDFILE_STATUSES: seq<string> := ["operational", "broken", "archived", "deleted"]

  // ---------------------------------------------------------------------
  // Lookups by type and status

  /** f holds exactly the elements of d whose status is the given one, unchanged. */
  ghost predicate IsFiltered<T>(f: map<string, T>, d: map<string, T>, status: string, statusOf: T -> string)
  {
    (forall k :: k in f <==> k in d && statusOf(d[k]) == status) &&
    (forall k :: k in f ==> f[k] == d[k])
  }

  /** The filter is determined by the dictionary and the status. */
  lemma FilterUnique<T>(f: map<string, T>, g: map<string, T>, d: map<string, T>, status: string, statusOf: T -> string)
    requires IsFiltered(f, d, status, statusOf) && IsFiltered(g, d, status, statusOf)
    ensures f == g
  {
    assert f.Keys == g.Keys;
  }

  /** Filtering a filtered dictionary again by the same status changes nothing. */
  lemma FilterIdempotent<T>(f: map<string, T>, d: map<string, T>, status: string, statusOf: T -> string)
    requires IsFiltered(f, d, status, statusOf)
    ensures IsFiltered(f, f, status, statusOf)
  {
  }

  /** The loop over the keys of one dictionary keeping the elements with the status. */
  method FilterByStatus<T>(d: map<string, T>, status: string, statusOf: T -> string) returns (r: map<string, T>)
    ensures IsFiltered(r, d, status, statusOf)
  {
    r := map[];
    var todo := d.Keys;
    while todo != {}
      invariant todo <= d.Keys
      invariant forall k :: k in r <==> k in d && k !in todo && statusOf(d[k]) == status
      invariant forall k :: k in r ==> r[k] == d[k]
      decreases |todo|
    {
      var k :| k in todo;
      if statusOf(d[k]) == status {
        r := r[k := d[k]];
      }
      todo := todo - {k};
    }
  }

  /** The four lookups; they differ only in what an unknown type gives. */
  datatype Category = Nodes | Infrastructures | FileNodes | Links

  /** One type's elements, the elements of all types by type, or None. */
  datatype Lookup<T> = Typed(elements: map<string, T>) | AllTypes(tables: map<string, map<string, T>>) | NoTable

  /** An unknown type gives {} from getNodes and getLinks, None from getInfrastructures and getFileNodes. */
  function UnknownType<T>(c: Category): (r: Lookup<T>)
    ensures r.NoTable? <==> c.Infrastructures? || c.FileNodes?
    ensures r.Typed? ==> r.elements == map[]
  {
    match c
    case Nodes => Typed(map[])
    case Links => Typed(map[])
    case Infrastructures => NoTable
    case FileNodes => NoTable
  }

  /**
   * getNodes, getInfrastructures, getFileNodes and getLinks over the parsed
   * table of the category (type, then id, then element). A stored type
   * wins over "all"; status "all" does no filtering.
   */
  method GetElements<T>(c: Category, table: map<string, map<string, T>>, key: string, status: string, statusOf: T -> string)
    returns (r: Lookup<T>)
    ensures key in table && status == "all" ==> r == Typed(table[key])
    ensures key in table && status != "all" ==> r.Typed? && IsFiltered(r.elements, table[key], status, statusOf)
    ensures key !in table && key == "all" && status == "all" ==> r == AllTypes(table)
    ensures key !in table && key == "all" && status != "all" ==>
      (r.AllTypes? && r.tables.Keys == table.Keys &&
       forall t :: t in table ==> IsFiltered(r.tables[t], table[t], status, statusOf))
    ensures key !in table && key != "all" ==> r == UnknownType(c)
  {
    if key in table {
      if status == "all" {
        return Typed(table[key]);
      }
      var f := FilterByStatus(table[key], status, statusOf);
      return Typed(f);
    } else if key == "all" {
      if status == "all" {
        return AllTypes(table);
      }
      var all: map<string, map<string, T>> := map[];
      var todo := table.Keys;
      while todo != {}
        invariant todo <= table.Keys
        invariant all.Keys == table.Keys - todo
        invariant forall t :: t in all ==> IsFiltered(all[t], table[t], status, statusOf)
        decreases |todo|
      {
        var t :| t in todo;
        var f := FilterByStatus(table[t], status, statusOf);
        all := all[t := f];
        todo := todo - {t};
      }
      return AllTypes(all);
    }
    return UnknownType(c);
  }

  /** getExperimentEntries: the experiment entries with the status, or all of them for "all". */
  method GetExperimentEntries<T>(entries: map<string, T>, status: string, statusOf: T -> string) returns (r: map<string, T>)
    ensures status == "all" ==> r == entries
    ensures status != "all" ==> IsFiltered(r, entries, status, statusOf)
  {
    if status == "all" {
      return entries;
    }
    r := FilterByStatus(entries, status, statusOf);
  }

  // ---------------------------------------------------------------------
  // The main physical topology file

  /** A line of the physical topology file: tag ("node", "infrastructure" or "link"), element type, file and status. */
  datatype PhysicalEntry = PhysicalEntry(tagType: string, elementType: string, filename: string, status: string)

  /**
   * How one entry is written under a tag and a type. The renderer and its
   * lemmas take the format as a parameter, so that nothing about ordering
   * depends on the characters of a line; PhysicalText fixes it to Line.
   */
  type LineFormat = (string, string, PhysicalEntry) -> string

  /** The line __writePhysicalEntries writes for an entry. */
  function Line(tag: string, t: string, e: PhysicalEntry): string
  {
    "\t<" + tag + " type=\"" + t + "\" file=\"" + e.filename + "\" status=\"" + e.status + "\" />\n"
  }

  /** The lines the inner loop writes for one element type. */
  function TypeLines(es: seq<PhysicalEntry>, tag: string, t: string, line: LineFormat): string
    decreases |es|
  {
    if |es| == 0 then ""
    else
      var e := es[|es| - 1];
      TypeLines(es[..|es| - 1], tag, t, line) + (if e.tagType == tag && e.elementType == t then line(tag, t, e) else "")
  }

  /** The entries with the tag and the element type, in their order. */
  function Matching(es: seq<PhysicalEntry>, tag: string, t: string): seq<PhysicalEntry>
    decreases |es|
  {
    if |es| == 0 then []
    else
      var e := es[|es| - 1];
      Matching(es[..|es| - 1], tag, t) + (if e.tagType == tag && e.elementType == t then [e] else [])
  }

  /** The lines of a sequence of entries. */
  function Lines(tag: string, t: string, es: seq<PhysicalEntry>, line: LineFormat): string
    decreases |es|
  {
    if |es| == 0 then "" else Lines(tag, t, es[..|es| - 1], line) + line(tag, t, es[|es| - 1])
  }

  lemma {:induction false} LinesSnoc(tag: string, t: string, es: seq<PhysicalEntry>, e: PhysicalEntry, line: LineFormat)
    ensures Lines(tag, t, es + [e], line) == Lines(tag, t, es, line) + line(tag, t, e)
  {
    assert (es + [e])[..|es|] == es;
  }

  /** An entry is matched exactly when it has the tag and the type. */
  lemma {:induction false} MatchingMeaning(es: seq<PhysicalEntry>, tag: string, t: string)
    ensures forall e :: e in Matching(es, tag, t) <==> e in es && e.tagType == tag && e.elementType == t
    decreases |es|
  {
    if |es| > 0 {
      var n := |es| - 1;
      MatchingMeaning(es[..n], tag, t);
      assert es == es[..n] + [es[n]];
    }
  }

  /** A block of the file is the lines of the matching entries, in the order of the list. */
  lemma {:induction false} TypeLinesMatching(es: seq<PhysicalEntry>, tag: string, t: string, line: LineFormat)
    ensures TypeLines(es, tag, t, line) == Lines(tag, t, Matching(es, tag, t), line)
    decreases |es|
  {
    if |es| > 0 {
      var n := |es| - 1;
      TypeLinesMatching(es[..n], tag, t, line);
      if es[n].tagType == tag && es[n].elementType == t {
        LinesSnoc(tag, t, Matching(es[..n], tag, t), es[n], line);
      } else {
        assert Matching(es, tag, t) == Matching(es[..n], tag, t) + [];
        assert TypeLines(es, tag, t, line) == TypeLines(es[..n], tag, t, line) + "";
        assert Matching(es, tag, t) == Matching(es[..n], tag, t);
        assert TypeLines(es, tag, t, line) == TypeLines(es[..n], tag, t, line);
      }
    }
  }

  /** The blocks of the types, in the order of the type list, each followed by an empty line. */
  function Sections(es: seq<PhysicalEntry>, tag: string, types: seq<string>, line: LineFormat): string
    decreases |types|
  {
    if |types| == 0 then ""
    else Sections(es, tag, types[..|types| - 1], line) + TypeLines(es, tag, types[|types| - 1], line) + "\n"
  }

  /** The text __writePhysicalEntries writes: infrastructure blocks, then node blocks. */
  function PhysicalText(es: seq<PhysicalEntry>): string
  {
    "<topology type=\"physical\">\n\n" + Sections(es, "infrastructure", INFRASTRUCTURE_TYPES, Line) +
    Sections(es, "node", NODE_TYPES, Line) + "</topology>\n"
  }

  /**
   * An entry reaches the file only as an infrastructure of a listed
   * infrastructure type or a node of a listed node type; link entries and
   * entries of other types are dropped.
   */
  lemma DroppedEntries(es: seq<PhysicalEntry>, e: PhysicalEntry)
    ensures (forall t :: t in INFRASTRUCTURE_TYPES ==> e !in Matching(es, "infrastructure", t)) <==>
      !(e in es && e.tagType == "infrastructure" && e.elementType in INFRASTRUCTURE_TYPES)
    ensures (forall t :: t in NODE_TYPES ==> e !in Matching(es, "node", t)) <==>
      !(e in es && e.tagType == "node" && e.elementType in NODE_TYPES)
  {
    MatchingMeaning(es, "infrastructure", "rack");
    MatchingMeaning(es, "infrastructure", "floorbox");
    forall t | t in NODE_TYPES
      ensures e in Matching(es, "node", t) <==> e in es && e.tagType == "node" && e.elementType == t
    {
      MatchingMeaning(es, "node", t);
    }
  }

  /** The nested loops over the types and the entries of one tag. */
  method RenderSections(es: seq<PhysicalEntry>, tag: string, types: seq<string>, line: LineFormat) returns (s: string)
    ensures s == Sections(es, tag, types, line)
  {
    s := "";
    for i := 0 to |types|
      invariant s == Sections(es, tag, types[..i], line)
    {
      assert types[..i + 1][..i] == types[..i];
      var t := types[i];
      for j := 0 to |es|
        invariant s == Sections(es, tag, types[..i], line) + TypeLines(es[..j], tag, t, line)
      {
        assert es[..j + 1][..j] == es[..j];
        var e := es[j];
        if e.tagType == tag && e.elementType == t {
          s := s + line(tag, t, e);
        }
      }
      assert es[..|es|] == es;
      s := s + "\n";
    }
    assert types[..|types|] == types;
  }

  /** __writePhysicalEntries: the text and 0, or -1 when the file cannot be written. */
  method WritePhysicalEntries(es: seq<PhysicalEntry>, writeOk: bool) returns (code: int, text: string)
    ensures text == PhysicalText(es)
    ensures code == (if writeOk then 0 else -1)
  {
    text := "<topology type=\"physical\">\n\n";
    var infra := RenderSections(es, "infrastructure", INFRASTRUCTURE_TYPES, Line);
    text := text + infra;
    var nodes := RenderSections(es, "node", NODE_TYPES, Line);
    text := text + nodes;
    text := text + "</topology>\n";
    code := if writeOk then 0 else -1;
  }

  /** What an edit of the physical topology file comes to. */
  datatype Edit = Written(code: int, entries: seq<PhysicalEntry>, text: string) | Rejected | Raised

  /** The entry writePhysicalEntry adds: a status outside NODE_STATUSES becomes "operational". */
  function NewEntry(etcPath: string, tagType: string, elementID: string, elementType: string, status: string): (r: PhysicalEntry)
    ensures r.status in NODE_STATUSES
    ensures r.status == status || (status !in NODE_STATUSES && r.status == "operational")
    ensures r.filename == etcPath + "/" + elementID + ".xml" && r.tagType == tagType && r.elementType == elementType
  {
    PhysicalEntry(tagType, elementType, etcPath + "/" + elementID + ".xml",
                  if status in NODE_STATUSES then status else "operational")
  }

  /** writePhysicalEntry: the parsed entries (none when the file could not be parsed) and the new one are rewritten. */
  method WritePhysicalEntry(parsed: Option<seq<PhysicalEntry>>, etcPath: string, tagType: string, elementID: string,
                            elementType: string, status: string, writeOk: bool) returns (r: Edit)
    ensures r.Written? && r.code == (if writeOk then 0 else -1) && r.text == PhysicalText(r.entries)
    ensures r.entries == (if parsed.Some? then parsed.value else []) + [NewEntry(etcPath, tagType, elementID, elementType, status)]
  {
    var es := if parsed.Some? then parsed.value else [];
    var st := status;
    if st !in NODE_STATUSES {
      st := "operational";
    }
    es := es + [PhysicalEntry(tagType, elementType, etcPath + "/" + elementID + ".xml", st)];
    var code, text := WritePhysicalEntries(es, writeOk);
    return Written(code, es, text);
  }

  /** The entries whose file name does not contain the id, in order. */
  function Kept(es: seq<PhysicalEntry>, elementID: string): seq<PhysicalEntry>
    decreases |es|
  {
    if |es| == 0 then []
    else
      var e := es[|es| - 1];
      Kept(es[..|es| - 1], elementID) + (if Contains(e.filename, elementID) then [] else [e])
  }

  /** Exactly the entries whose file name lacks the id are kept. */
  lemma {:induction false} KeptMeaning(es: seq<PhysicalEntry>, elementID: string)
    ensures forall e :: e in Kept(es, elementID) <==> e in es && !Contains(e.filename, elementID)
    ensures |Kept(es, elementID)| <= |es|
    decreases |es|
  {
    if |es| > 0 {
      var n := |es| - 1;
      KeptMeaning(es[..n], elementID);
      assert es == es[..n] + [es[n]];
    }
  }

  /** deletePhysicalEntry; iterating an unparsed file raises. */
  method DeletePhysicalEntry(parsed: Option<seq<PhysicalEntry>>, elementID: string, writeOk: bool) returns (r: Edit)
    ensures parsed.None? ==> r == Raised
    ensures parsed.Some? ==>
      r.Written? && r.entries == Kept(parsed.value, elementID) &&
      r.code == (if writeOk then 0 else -1) && r.text == PhysicalText(r.entries)
  {
    if parsed.None? {
      return Raised;
    }
    var es := parsed.value;
    var kept: seq<PhysicalEntry> := [];
    for i := 0 to |es|
      invariant kept == Kept(es[..i], elementID)
    {
      assert es[..i + 1][..i] == es[..i];
      FindIffContains(es[i].filename, elementID);
      if Find(es[i].filename, elementID) == -1 {
        kept := kept + [es[i]];
      }
    }
    assert es[..|es|] == es;
    var code, text := WritePhysicalEntries(kept, writeOk);
    return Written(code, kept, text);
  }

  /**
   * changePhysicalEntryStatus: -1 for a status outside NODE_STATUSES;
   * otherwise every entry whose file name contains the id gets the status.
   */
  method ChangePhysicalEntryStatus(parsed: Option<seq<PhysicalEntry>>, elementID: string, newStatus: string, writeOk: bool)
    returns (r: Edit)
    ensures newStatus !in NODE_STATUSES ==> r == Rejected
    ensures newStatus in NODE_STATUSES && parsed.None? ==> r == Raised
    ensures newStatus in NODE_STATUSES && parsed.Some? ==>
      (r.Written? && |r.entries| == |parsed.value| &&
       r.code == (if writeOk then 0 else -1) && r.text == PhysicalText(r.entries) &&
       forall i :: 0 <= i < |r.entries| ==>
         r.entries[i] == if Contains(parsed.value[i].filename, elementID) then parsed.value[i].(status := newStatus) else parsed.value[i])
  {
    if newStatus !in NODE_STATUSES {
      return Rejected;
    }
    if parsed.None? {
      return Raised;
    }
    var es := parsed.value;
    for counter := 0 to |es|
      invariant |es| == |parsed.value|
      invariant forall i :: 0 <= i < counter ==>
        es[i] == if Contains(parsed.value[i].filename, elementID) then parsed.value[i].(status := newStatus) else parsed.value[i]
      invariant forall i :: counter <= i < |es| ==> es[i] == parsed.value[i]
    {
      FindIffContains(es[counter].filename, elementID);
      if Find(es[counter].filename, elementID) != -1 {
        es := es[counter := es[counter].(status := newStatus)];
      }
    }
    var code, text := WritePhysicalEntries(es, writeOk);
    return Written(code, es, text);
  }
}
