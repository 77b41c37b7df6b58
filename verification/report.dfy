/** The report's table logic (`glotter/report.py`): one row per language holding, per
    project display name, the file that implements it, and the column widths of the
    printed table. */
module Report {
  import opened Outcomes
  import opened Naming
  import ModelsProject
  import opened Sources

  /** A language row: column title to cell. */
  type Row = map<string, string>

  /** The column that holds the row's language. */
  const NameColumn: string := "name"

  /** One cell assignment of the aggregation: `stats[language][column] = cell`. */
  datatype Write = Write(language: string, column: string, cell: string)

  /** A new language row: an empty cell under every project column, and the language
      under `name`. */
  function NewRow(columns: seq<string>, language: string): (r: Row)
    ensures r.Keys == (set p | p in columns) + {NameColumn}
    ensures r[NameColumn] == language
    ensures forall p :: p in columns && p != NameColumn ==> r[p] == ""
  {
    (map p | p in columns :: "")[NameColumn := language]
  }

  /** The writes one project's sources make, in order: under the project's display name,
      each source's name followed by its extension. */
  function SourceWrites(display: string, sources: seq<Source>): (r: seq<Write>)
    ensures |r| == |sources|
    ensures forall i :: 0 <= i < |r| ==>
      r[i].language == sources[i].language && r[i].column == display && r[i].cell == sources[i].fileName
  {
    seq(|sources|, i requires 0 <= i < |sources| =>
      NameAndExtension(sources[i]);
      Write(sources[i].language, display, Name(sources[i]) + Extension(sources[i])))
  }

  /** The writes of all projects, bucket after bucket; a bucket for a project missing
      from the catalog is a `KeyError`. */
  function Writes(catalog: map<string, Project>, buckets: seq<(string, seq<Source>)>): (r: Result<seq<Write>>)
    ensures r.Err? <==> exists i :: 0 <= i < |buckets| && buckets[i].0 !in catalog
    ensures r.Err? ==> exists i :: 0 <= i < |buckets| && buckets[i].0 !in catalog && r.error == KeyError(buckets[i].0)
    ensures r.Ok? ==> |r.value| == TotalSources(buckets)
  {
    if buckets == [] then Ok([])
    else
      var before :- Writes(catalog, buckets[..|buckets| - 1]);
      var (key, sources) := buckets[|buckets| - 1];
      if key !in catalog then Err(KeyError(key))
      else Ok(before + SourceWrites(ModelsProject.DisplayName(catalog[key]), sources))
  }

  function TotalSources(buckets: seq<(string, seq<Source>)>): nat {
    if buckets == [] then 0 else TotalSources(buckets[..|buckets| - 1]) + |buckets[|buckets| - 1].1|
  }

  /** The languages the writes touch. */
  function Languages(writes: seq<Write>): set<string> {
    set w | w in writes :: w.language
  }

  /** The languages of the sources in the buckets. */
  function SourceLanguages(buckets: seq<(string, seq<Source>)>): set<string> {
    set b, s | b in buckets && s in b.1 :: s.language
  }

  /** The rows after the given writes, applied in order: one row per language written. */
  function Apply(columns: seq<string>, writes: seq<Write>): (r: map<string, Row>)
    ensures r.Keys == Languages(writes)
  {
    if writes == [] then map[]
    else
      var stats := Apply(columns, writes[..|writes| - 1]);
      var w := writes[|writes| - 1];
      assert writes == writes[..|writes| - 1] + [w];
      var row := if w.language in stats then stats[w.language] else NewRow(columns, w.language);
      stats[w.language := row[w.column := w.cell]]
  }

  /** The cell the last write to `column` of the row of `language` set, if any. */
  function LastWrite(writes: seq<Write>, language: string, column: string): Option<string> {
    if writes == [] then None
    else
      var w := writes[|writes| - 1];
      if w.language == language && w.column == column then Some(w.cell)
      else LastWrite(writes[..|writes| - 1], language, column)
  }

  /** Every row has a cell under each project column, under `name`, and wherever it was
      written; each cell is what the last write to it set, and a cell nobody wrote holds
      the language under `name` and is empty under a project. */
  lemma {:induction false} RowIsLastWrites(columns: seq<string>, writes: seq<Write>, l: string, p: string)
    requires l in Apply(columns, writes)
    ensures p in Apply(columns, writes)[l] <==> p in columns || p == NameColumn || LastWrite(writes, l, p).Some?
    ensures p in Apply(columns, writes)[l] ==>
      Apply(columns, writes)[l][p] == (match LastWrite(writes, l, p)
                                       case Some(cell) => cell
                                       case None => if p == NameColumn then l else "")
  {
    var prefix := writes[..|writes| - 1];
    var stats := Apply(columns, prefix);
    var w := writes[|writes| - 1];
    if w.language != l {
      RowIsLastWrites(columns, prefix, l, p);
    } else if l in stats {
      RowIsLastWrites(columns, prefix, l, p);
    } else {
      NoRowNoWrites(columns, prefix, l, p);
    }
  }

  /** Without a row for `language` nothing was written to it. */
  lemma {:induction false} NoRowNoWrites(columns: seq<string>, writes: seq<Write>, l: string, p: string)
    requires l !in Apply(columns, writes)
    ensures LastWrite(writes, l, p).None?
  {
    if writes != [] {
      assert writes[|writes| - 1] in writes;
      NoRowNoWrites(columns, writes[..|writes| - 1], l, p);
    }
  }

  /** `_collect_language_stats` over the buckets of `get_sources`, in bucket order;
      `columns` are the project display names the rows are seeded with. There is one
      row per language of the sources. */
  function CollectLanguageStats(catalog: map<string, Project>, columns: seq<string>,
                                buckets: seq<(string, seq<Source>)>): (r: Result<map<string, Row>>)
    ensures r.Err? <==> exists i :: 0 <= i < |buckets| && buckets[i].0 !in catalog
    ensures r.Ok? ==> r.value.Keys == SourceLanguages(buckets)
  {
    var writes :- Writes(catalog, buckets);
    WritesCoverSources(catalog, buckets);
    Ok(Apply(columns, writes))
  }

  /** The languages written are exactly the languages of the sources. */
  lemma {:induction false} WritesCoverSources(catalog: map<string, Project>, buckets: seq<(string, seq<Source>)>)
    requires Writes(catalog, buckets).Ok?
    ensures Languages(Writes(catalog, buckets).value) == SourceLanguages(buckets)
  {
    if buckets != [] {
      var prefix := buckets[..|buckets| - 1];
      WritesCoverSources(catalog, prefix);
      var before := Writes(catalog, prefix).value;
      var (key, sources) := buckets[|buckets| - 1];
      var last := SourceWrites(ModelsProject.DisplayName(catalog[key]), sources);
      assert Writes(catalog, buckets).value == before + last;
      assert Languages(last) == set s | s in sources :: s.language by {
        forall s | s in sources ensures s.language in Languages(last) {
          var j :| 0 <= j < |sources| && sources[j] == s;
          assert last[j] in last;
        }
      }
      assert Languages(before + last) == Languages(before) + Languages(last);
      assert buckets == prefix + [(key, sources)];
      assert SourceLanguages(buckets) == SourceLanguages(prefix) + set s | s in sources :: s.language;
    }
  }

  /** The file name of the last source of `language` among `sources`, if any. */
  function LastIn(sources: seq<Source>, language: string): Option<string> {
    if sources == [] then None
    else if sources[|sources| - 1].language == language then Some(sources[|sources| - 1].fileName)
    else LastIn(sources[..|sources| - 1], language)
  }

  /** Reference for a collected cell: the file name of the last source of `language`, in
      bucket order, whose project's display name is `display`. */
  function LastFile(catalog: map<string, Project>, buckets: seq<(string, seq<Source>)>,
                    language: string, display: string): Option<string>
  {
    if buckets == [] then None
    else
      var (key, sources) := buckets[|buckets| - 1];
      var here := if key in catalog && ModelsProject.DisplayName(catalog[key]) == display
                  then LastIn(sources, language) else None;
      if here.Some? then here else LastFile(catalog, buckets[..|buckets| - 1], language, display)
  }

  /** The last write to a cell in a concatenation comes from the second part if it
      writes that cell, and from the first part otherwise. */
  lemma {:induction false} LastWriteAppend(a: seq<Write>, b: seq<Write>, language: string, column: string)
    ensures LastWrite(a + b, language, column)
      == if LastWrite(b, language, column).Some? then LastWrite(b, language, column) else LastWrite(a, language, column)
  {
    if b == [] {
      assert a + b == a;
    } else {
      assert (a + b)[..|a + b| - 1] == a + b[..|b| - 1];
      LastWriteAppend(a, b[..|b| - 1], language, column);
    }
  }

  /** One project's writes set a cell of its own column only, to the last matching
      source's file name. */
  lemma {:induction false} LastSourceWrite(display: string, sources: seq<Source>, language: string, column: string)
    ensures LastWrite(SourceWrites(display, sources), language, column)
      == if display == column then LastIn(sources, language) else None
  {
    if sources != [] {
      var prefix := sources[..|sources| - 1];
      LastSourceWrite(display, prefix, language, column);
      assert SourceWrites(display, sources)[..|sources| - 1] == SourceWrites(display, prefix);
    }
  }

  /** The last write to a cell is the reference file for that cell. */
  lemma {:induction false} WritesLastFile(catalog: map<string, Project>, buckets: seq<(string, seq<Source>)>,
                                          language: string, display: string)
    requires Writes(catalog, buckets).Ok?
    ensures LastWrite(Writes(catalog, buckets).value, language, display) == LastFile(catalog, buckets, language, display)
  {
    if buckets != [] {
      var prefix := buckets[..|buckets| - 1];
      var (key, sources) := buckets[|buckets| - 1];
      WritesLastFile(catalog, prefix, language, display);
      var name := ModelsProject.DisplayName(catalog[key]);
      LastWriteAppend(Writes(catalog, prefix).value, SourceWrites(name, sources), language, display);
      LastSourceWrite(name, sources, language, display);
    }
  }

  /** The cells `_collect_language_stats` fills: each language row has a cell under every
      project column, under `name`, and under each display name some source of the
      language reaches; that cell is the file name of the last such source in bucket
      order, and an unreached cell is the language under `name` and empty elsewhere. */
  lemma StatsCells(catalog: map<string, Project>, columns: seq<string>, buckets: seq<(string, seq<Source>)>,
                   language: string, display: string)
    requires CollectLanguageStats(catalog, columns, buckets).Ok?
    requires language in CollectLanguageStats(catalog, columns, buckets).value
    ensures var row := CollectLanguageStats(catalog, columns, buckets).value[language];
      && (display in row <==> display in columns || display == NameColumn
                              || LastFile(catalog, buckets, language, display).Some?)
      && (display in row ==>
            row[display] == (match LastFile(catalog, buckets, language, display)
                             case Some(file) => file
                             case None => if display == NameColumn then language else ""))
  {
    var writes := Writes(catalog, buckets).value;
    RowIsLastWrites(columns, writes, language, display);
    WritesLastFile(catalog, buckets, language, display);
  }

  /** `n` is the width of `project`'s column: its title's length or the length of one of
      its cells in the given rows, whichever is largest. */
  ghost predicate IsWidth(stats: map<string, Row>, languages: seq<string>, project: string, n: nat)
    requires forall l :: l in languages ==> l in stats
  {
    && n >= |project|
    && (forall l :: l in languages && project in stats[l] ==> n >= |stats[l][project]|)
    && (n == |project| || exists l :: l in languages && project in stats[l] && n == |stats[l][project]|)
  }

  /** The width of one project's column, as the inner loop of `_get_column_widths`
      computes it: a row without the project's cell is skipped. */
  method ColumnWidth(stats: map<string, Row>, project: string, languages: seq<string>) returns (maxLen: nat)
    requires forall l :: l in languages ==> l in stats
    ensures maxLen >= |project|
    ensures forall l :: l in languages && project in stats[l] ==> maxLen >= |stats[l][project]|
    ensures maxLen == |project| || exists l :: l in languages && project in stats[l] && maxLen == |stats[l][project]|
  {
    maxLen := |project|;
    var j := 0;
    while j < |languages|
      invariant 0 <= j <= |languages|
      invariant maxLen >= |project|
      invariant forall k :: 0 <= k < j && project in stats[languages[k]] ==> maxLen >= |stats[languages[k]][project]|
      invariant maxLen == |project| || exists l :: l in languages && project in stats[l] && maxLen == |stats[l][project]|
    {
      var lang := languages[j];
      if project in stats[lang] {
        var entryLen := |stats[lang][project]|;
        if entryLen > maxLen {
          maxLen := entryLen;
        }
      }
      j := j + 1;
    }
  }

  /** `_get_column_widths`: one width per project, each the widest of its title and of
      its cells in the rows of the given languages. */
  method GetColumnWidths(stats: map<string, Row>, columns: seq<string>, languages: seq<string>)
    returns (widths: map<string, nat>)
    requires forall l :: l in languages ==> l in stats
    ensures widths.Keys == set p | p in columns
    ensures forall p :: p in widths ==> IsWidth(stats, languages, p, widths[p])
  {
    widths := map[];
    var i := 0;
    while i < |columns|
      invariant 0 <= i <= |columns|
      invariant widths.Keys == set k | 0 <= k < i :: columns[k]
      invariant forall p :: p in widths ==> IsWidth(stats, languages, p, widths[p])
    {
      var project := columns[i];
      var maxLen := ColumnWidth(stats, project, languages);
      widths := widths[project := maxLen];
      i := i + 1;
    }
  }

  /** The language-column width in `_write_stdout`: the longest language name; `max` of
      no languages is a `ValueError`. */
  function LanguageWidth(languages: seq<string>): (r: Result<nat>)
    ensures r.Err? <==> languages == []
    ensures r.Err? ==> r.error == ValueError
    ensures r.Ok? ==> forall l :: l in languages ==> r.value >= |l|
    ensures r.Ok? ==> exists l :: l in languages && r.value == |l|
  {
    if languages == [] then Err(ValueError)
    else if |languages| == 1 then Ok(|languages[0]|)
    else
      var rest := LanguageWidth(languages[1..]).value;
      assert forall l :: l in languages ==> l == languages[0] || l in languages[1..];
      Ok(if |languages[0]| > rest then |languages[0]| else rest)
  }
}
