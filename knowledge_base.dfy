/**
 * `KnowledgeRetriever`: the read-only rule and routine tables handed to the
 * inference oracle, and `get_context`, which picks a behavioural hint for a
 * component kind and lists the Java routines its XML mentions.
 */
module KnowledgeBase {
  import opened Strings

  /** The Java routine "Rosetta stone", in the dictionary's insertion order. */
  const FunctionMap: seq<(string, string)> := [
    ("TalendDate.getCurrentDate", "current_date"),
    ("TalendDate.getDate", "current_timestamp"),
    ("TalendDate.formatDate", "strftime({arg2}, {arg1})"),
    ("TalendDate.parseDate", "strptime({arg2}, {arg1})"),
    ("TalendDate.addDate", "{arg1} + INTERVAL {arg2} {arg3}"),
    ("TalendDate.diffDate", "date_diff({arg3}, {arg2}, {arg1})"),
    ("TalendDate.isDate", "try_cast({arg1} as DATE) IS NOT NULL"),
    ("TalendDate.compareDate", "CASE WHEN {arg1} < {arg2} THEN -1 WHEN {arg1} > {arg2} THEN 1 ELSE 0 END"),
    ("TalendDate.getFirstDayOfMonth", "date_trunc('month', {arg1})"),
    ("TalendDate.getLastDayOfMonth", "last_day({arg1})"),
    ("TalendDate.getPartOfDate", "extract({arg1} from {arg2})"),
    ("StringHandling.UPCASE", "upper({arg1})"),
    ("StringHandling.DOWNCASE", "lower({arg1})"),
    ("StringHandling.ALPHA", "regexp_matches({arg1}, '^[a-zA-Z]+$')"),
    ("StringHandling.IS_ALPHA", "regexp_matches({arg1}, '^[a-zA-Z]+$')"),
    ("StringHandling.CHANGE", "replace({arg1}, {arg2}, {arg3})"),
    ("StringHandling.COUNT", "(length({arg1}) - length(replace({arg1}, {arg2}, '')))"),
    ("StringHandling.EREPLACE", "regexp_replace({arg1}, {arg2}, {arg3})"),
    ("StringHandling.INDEX", "strpos({arg1}, {arg2}) - 1"),
    ("StringHandling.LEFT", "left({arg1}, {arg2})"),
    ("StringHandling.RIGHT", "right({arg1}, {arg2})"),
    ("StringHandling.LEN", "length({arg1})"),
    ("StringHandling.TRIM", "trim({arg1})"),
    ("StringHandling.BTRIM", "trim({arg1})"),
    ("StringHandling.LTRIM", "ltrim({arg1})"),
    ("StringHandling.RTRIM", "rtrim({arg1})"),
    ("StringHandling.STR", "repeat({arg1}, {arg2})"),
    ("Mathematical.ABS", "abs({arg1})"),
    ("Mathematical.INT", "cast({arg1} as INTEGER)"),
    ("Mathematical.SQRT", "sqrt({arg1})"),
    ("Mathematical.POW", "power({arg1}, {arg2})"),
    ("Mathematical.SMUL", "({arg1} * {arg2})"),
    ("Mathematical.SDIV", "({arg1} / nullif({arg2}, 0))"),
    ("Mathematical.FMOD", "mod({arg1}, {arg2})"),
    ("Mathematical.EXP", "exp({arg1})"),
    ("Mathematical.LN", "ln({arg1})"),
    ("Mathematical.LOG", "log10({arg1})"),
    ("Relational.ISNULL", "({arg1} IS NULL)"),
    ("Relational.NOTISNULL", "({arg1} IS NOT NULL)"),
    ("Numeric.sequence", "row_number() OVER (ORDER BY (SELECT NULL))"),
    ("Numeric.random", "random()"),
    ("Numeric.convertImpliedDecimal", "cast({arg1} as decimal) / power(10, {arg2})"),
    ("DataOperation.CHAR", "chr({arg1})"),
    ("DataOperation.DT", "cast({arg1} as timestamp)"),
    ("BigDecimal.ROUND", "round({arg1}, {arg2})"),
    ("BigDecimal.ROUND_HALF_UP", "round({arg1}, {arg2})"),
    ("BigDecimal.ROUND_UP", "ceil({arg1})"),
    ("BigDecimal.ROUND_DOWN", "floor({arg1})")
  ]

  const SpecialRules: map<string, string> := map[
    "tMap" := "RULE: [CTE] Multi-input Mapper. Use LEFT/INNER JOIN for lookups. Map expressions.",
    "tXMLMap" := "RULE: [CTE] Hierarchical Mapper. Use xpath() functions in SELECT mappings.",
    "tFilterRow" := "RULE: [CTE] Filter. Convert Java conditions to SQL WHERE.",
    "tFilterColumns" := "RULE: [CTE] Projection. Select only specified columns.",
    "tAggregateRow" := "RULE: [CTE] Aggregator. GROUP BY logic with SUM/MIN/MAX/AVG.",
    "tAggregateSortedRow" := "RULE: [CTE] Sorted Aggregator. GROUP BY logic (data is pre-sorted).",
    "tSortRow" := "RULE: [CTE] Sorter. Generate ORDER BY clause.",
    "tExternalSortRow" := "RULE: [CTE] External Sorter. Generate ORDER BY clause.",
    "tUniqRow" := "RULE: [CTE] Deduplicator. Use QUALIFY ROW_NUMBER() OVER(...) = 1.",
    "tJoin" := "RULE: [CTE] Joiner. Generate standard INNER/LEFT JOIN syntax.",
    "tUnite" := "RULE: [CTE] Union. Use UNION ALL to combine datasets.",
    "tNormalize" := "RULE: [CTE] Unpivoter. Use UNNEST(string_split(column, delimiter)).",
    "tDenormalize" := "RULE: [CTE] Pivoter. Use string_agg(column, delimiter).",
    "tDenormalizeSortedRow" := "RULE: [CTE] Pivoter. Use string_agg(column, delimiter).",
    "tSplitRow" := "RULE: [CTE] Splitter. Use UNNEST logic to explode rows.",
    "tReplace" := "RULE: [CTE] Cleaner. Use replace() or regexp_replace().",
    "tConvertType" := "RULE: [CTE] Caster. Use CAST(column AS type).",
    "tSampleRow" := "RULE: [CTE] Sampler. Use USING SAMPLE n PERCENT.",
    "tReplicate" := "RULE: [CTE] Replicator. Select * from previous CTE (Branching point).",
    "tExtractJSONFields" := "RULE: [CTE] JSON Parse. Use json_extract(column, path).",
    "tExtractXMLField" := "RULE: [CTE] XML Parse. Use unnest(xpath(column, path)).",
    "tExtractDelimitedFields" := "RULE: [CTE] Splitter. Use split_part() or string_split().",
    "tExtractPositionalFields" := "RULE: [CTE] Substring. Use substring(col, start, len).",
    "tExtractDynamicFields" := "RULE: [CTE] Dynamic. Use json extraction or map logic.",
    "tWriteJSONField" := "RULE: [CTE] JSON Builder. Use to_json() or json_object().",
    "tWriteXMLField" := "RULE: [CTE] XML Builder. Use xmlelement() or string concat.",
    "tWriteDynamicFields" := "RULE: [CTE] Dynamic. Flatten to string representation.",
    "tRules" := "RULE: [CTE] Rule Engine. Generate CASE WHEN statements based on logic.",
    "tBigQueryInput" := "RULE: [SOURCE] BigQuery. Map to {{ source('bigquery', 'table') }}.",
    "tBigQueryOutput" := "RULE: [TARGET] BigQuery. Materialize as table.",
    "tS3Get" := "RULE: [SOURCE] AWS S3. Use DuckDB read_parquet/csv from s3:// path.",
    "tRedshiftInput" := "RULE: [SOURCE] Redshift. Map to {{ source('redshift', 'table') }}.",
    "tSnowflakeInput" := "RULE: [SOURCE] Snowflake. Map to {{ source('snowflake', 'table') }}.",
    "tMysqlInput" := "RULE: [SOURCE] MySQL. Map to {{ source('mysql', 'table') }}.",
    "tMysqlRow" := "RULE: [SQL] MySQL. Extract 'QUERY' string and wrap in CTE.",
    "tOracleInput" := "RULE: [SOURCE] Oracle. Map to {{ source('oracle', 'table') }}.",
    "tPostgresqlInput" := "RULE: [SOURCE] Postgres. Map to {{ source('postgres', 'table') }}.",
    "tFileInputDelimited" := "RULE: [SOURCE] CSV. Use {{ source('files', 'csv_name') }}.",
    "tFileInputJSON" := "RULE: [SOURCE] JSON. Use read_json_auto() or dbt source.",
    "tFileInputXML" := "RULE: [SOURCE] XML. Use DuckDB read_xml() or xpath().",
    "tFileOutputParquet" := "RULE: [TARGET] Parquet. Materialize as parquet file.",
    "tLoop" := "RULE: [ORCH] Loop. Handled by Temporal Workflow.",
    "tRunJob" := "RULE: [ORCH] Subjob. Handled by Temporal ChildWorkflow.",
    "tDie" := "RULE: [ORCH] Error. Handled by Temporal RetryPolicy."
  ]

  /** The behavioural families the heuristic rules distinguish. */
  datatype Kind = Source | Target | Orchestration | Ignore | Generic

  const OrchestrationMarkers: seq<string> := ["Loop", "FileList", "RunJob", "Wait", "Sleep", "Die", "Warn", "Exist"]
  const TransactionMarkers: seq<string> := ["Connection", "Commit", "Rollback", "Close"]

  /** `any(x in s for x in markers)` */
  predicate ContainsAny(s: string, markers: seq<string>)
  {
    exists m :: m in markers && Contains(s, m)
  }

  /**
   * The suffix and keyword heuristics, first match wins: an orchestration
   * marker outranks a transaction marker, and a type with neither is generic.
   */
  function HeuristicKind(compType: string): (k: Kind)
    ensures k == Orchestration ==> ContainsAny(compType, OrchestrationMarkers)
    ensures k == Ignore ==> ContainsAny(compType, TransactionMarkers) && !ContainsAny(compType, OrchestrationMarkers)
    ensures k == Generic ==> !ContainsAny(compType, OrchestrationMarkers) && !ContainsAny(compType, TransactionMarkers)
    ensures !EndsWith(compType, "Input") && !EndsWith(compType, "Output") && !EndsWith(compType, "Put") ==>
      (k == Orchestration <==> ContainsAny(compType, OrchestrationMarkers))
  {
    if EndsWith(compType, "Input") then Source
    else if EndsWith(compType, "Output") || EndsWith(compType, "Put") then Target
    else if ContainsAny(compType, OrchestrationMarkers) then Orchestration
    else if ContainsAny(compType, TransactionMarkers) then Ignore
    else Generic
  }

  function KindHint(k: Kind): string
  {
    match k
    case Source => "RULE: [SOURCE] Database/SaaS. Map to {{ source() }}. Extract Query if present."
    case Target => "RULE: [TARGET] Data Sink. This CTE defines the final materialization."
    case Orchestration => "RULE: [ORCH] Control Flow. Handled by Temporal Workflow, ignore in dbt SQL logic."
    case Ignore => "RULE: [IGNORE] dbt handles transactions automatically via profiles.yml."
    case Generic => "RULE: [GENERIC] Analyze XML logic and wrap in a dbt CTE."
  }

  /** `special_rules.get(comp_type)`, falling back to the heuristics when that is missing or empty. */
  function RuleHint(compType: string): (r: string)
    ensures compType in SpecialRules && SpecialRules[compType] != "" ==> r == SpecialRules[compType]
  {
    if compType in SpecialRules && SpecialRules[compType] != "" then SpecialRules[compType]
    else KindHint(HeuristicKind(compType))
  }

  /** `func in xml or ('.' in func and func.split(".")[1] in xml)` */
  predicate Detects(key: string, xml: string)
  {
    Contains(xml, key) || ('.' in key && Contains(xml, SecondField(key, '.')))
  }

  function MappingLine(entry: (string, string)): string
  {
    "- JAVA: " + entry.0 + "(...) -> SQL: " + entry.1
  }

  /** The lines of every entry of `table` the snippet mentions, in table order. */
  function DetectedLines(table: seq<(string, string)>, xml: string): seq<string>
  {
    if |table| == 0 then []
    else
      var last := table[|table| - 1];
      DetectedLines(table[..|table| - 1], xml) + (if Detects(last.0, xml) then [MappingLine(last)] else [])
  }

  function AllLines(table: seq<(string, string)>): seq<string>
  {
    if |table| == 0 then [] else AllLines(table[..|table| - 1]) + [MappingLine(table[|table| - 1])]
  }

  /** The text after the `FUNCTION MAP:` heading, for the lines detected in a table. */
  function Section(detected: seq<string>): string
  {
    if |detected| > 0 then Join(detected, "\n") else "Standard SQL logic."
  }

  function FunctionMapSection(xml: string): string
  {
    Section(DetectedLines(FunctionMap, xml))
  }

  /** The `rag` entry of the dictionary `get_context` returns. */
  function Context(compType: string, xml: string): string
  {
    RuleHint(compType) + "\n\nFUNCTION MAP:\n" + FunctionMapSection(xml)
  }

  /** The detection loop of `get_context`, over the function map `table`. */
  method DetectFunctions(table: seq<(string, string)>, xml: string) returns (detected: seq<string>)
    ensures detected == DetectedLines(table, xml)
  {
    detected := [];
    var i := 0;
    while i < |table|
      invariant 0 <= i <= |table|
      invariant detected == DetectedLines(table[..i], xml)
    {
      var (func, sql) := table[i];
      assert table[..i + 1][..i] == table[..i];
      if Contains(xml, func) || ('.' in func && Contains(xml, SecondField(func, '.'))) {
        detected := detected + ["- JAVA: " + func + "(...) -> SQL: " + sql];
      }
      i := i + 1;
    }
    assert table[..|table|] == table;
  }

  /** `KnowledgeRetriever.get_context`, returning the `rag` text. */
  method GetContext(compType: string, xml: string) returns (rag: string)
    ensures rag == Context(compType, xml)
  {
    var hint := if compType in SpecialRules then SpecialRules[compType] else "";
    if hint == "" {
      if EndsWith(compType, "Input") {
        hint := KindHint(Source);
      } else if EndsWith(compType, "Output") || EndsWith(compType, "Put") {
        hint := KindHint(Target);
      } else if ContainsAny(compType, OrchestrationMarkers) {
        hint := KindHint(Orchestration);
      } else if ContainsAny(compType, TransactionMarkers) {
        hint := KindHint(Ignore);
      } else {
        hint := KindHint(Generic);
      }
    }
    var detected := DetectFunctions(FunctionMap, xml);
    rag := hint + "\n\nFUNCTION MAP:\n" + (if |detected| > 0 then Join(detected, "\n") else "Standard SQL logic.");
  }

  /**
   * For a qualified key `Class.method`, detection is exactly "the method
   * name occurs in the snippet": the full-name test never adds anything.
   */
  lemma DetectsByMethodName(key: string, xml: string)
    requires '.' in key
    ensures Detects(key, xml) <==> Contains(xml, SecondField(key, '.'))
  {
    if Contains(xml, key) {
      SecondFieldContained(key, '.');
      ContainsTransitive(xml, key, SecondField(key, '.'));
    }
  }

  /** The reported lines keep the table's order, each entry at most once. */
  lemma {:induction false} DetectedLinesOrdered(table: seq<(string, string)>, xml: string)
    ensures IsSubseq(DetectedLines(table, xml), AllLines(table))
  {
    if |table| > 0 {
      var init := table[..|table| - 1];
      var last := table[|table| - 1];
      DetectedLinesOrdered(init, xml);
      SubseqAppend(DetectedLines(init, xml), AllLines(init), MappingLine(last), Detects(last.0, xml));
      assert AllLines(table) == AllLines(init) + [MappingLine(last)];
      assert DetectedLines(table, xml) ==
        if Detects(last.0, xml) then DetectedLines(init, xml) + [MappingLine(last)] else DetectedLines(init, xml);
    }
  }

  /** A mapping line is reported iff its entry is detected. */
  lemma {:induction false} DetectedLinesMembers(table: seq<(string, string)>, xml: string)
    ensures forall i :: 0 <= i < |table| && Detects(table[i].0, xml) ==> MappingLine(table[i]) in DetectedLines(table, xml)
    ensures forall l :: l in DetectedLines(table, xml) ==>
      exists i :: 0 <= i < |table| && Detects(table[i].0, xml) && l == MappingLine(table[i])
  {
    if |table| > 0 {
      var init := table[..|table| - 1];
      var last := table[|table| - 1];
      DetectedLinesMembers(init, xml);
      assert DetectedLines(table, xml) ==
        if Detects(last.0, xml) then DetectedLines(init, xml) + [MappingLine(last)] else DetectedLines(init, xml);
      forall l | l in DetectedLines(table, xml)
        ensures exists i :: 0 <= i < |table| && Detects(table[i].0, xml) && l == MappingLine(table[i])
      {
        if l in DetectedLines(init, xml) {
          var i :| 0 <= i < |init| && Detects(init[i].0, xml) && l == MappingLine(init[i]);
          assert table[i] == init[i];
        } else {
          assert Detects(table[|table| - 1].0, xml) && l == MappingLine(table[|table| - 1]);
        }
      }
      forall i | 0 <= i < |table| && Detects(table[i].0, xml)
        ensures MappingLine(table[i]) in DetectedLines(table, xml)
      {
        if i < |init| { assert table[i] == init[i]; }
      }
    }
  }

  /**
   * A mapping line is reported iff its entry is detected, and the reported
   * lines keep the table's order, each entry at most once.
   */
  lemma DetectedLinesSpec(table: seq<(string, string)>, xml: string)
    ensures IsSubseq(DetectedLines(table, xml), AllLines(table))
    ensures forall i :: 0 <= i < |table| && Detects(table[i].0, xml) ==> MappingLine(table[i]) in DetectedLines(table, xml)
    ensures forall l :: l in DetectedLines(table, xml) ==>
      exists i :: 0 <= i < |table| && Detects(table[i].0, xml) && l == MappingLine(table[i])
  {
    DetectedLinesOrdered(table, xml);
    DetectedLinesMembers(table, xml);
  }

  /** Every reported line is a mapping line, so it starts with the `- JAVA: ` marker. */
  lemma {:induction false} DetectedLinesMarked(table: seq<(string, string)>, xml: string)
    ensures forall l :: l in DetectedLines(table, xml) ==> StartsWith(l, "- JAVA: ")
  {
    if |table| > 0 {
      DetectedLinesMarked(table[..|table| - 1], xml);
    }
  }

  /** The section reads "Standard SQL logic." exactly when no entry of the table is detected. */
  lemma SectionFallback(table: seq<(string, string)>, xml: string)
    ensures Section(DetectedLines(table, xml)) == "Standard SQL logic." <==> DetectedLines(table, xml) == []
  {
    var detected := DetectedLines(table, xml);
    if |detected| > 0 {
      JoinStartsWithFirst(detected, "\n");
      DetectedLinesMarked(table, xml);
      assert detected[0] in detected;
      assert Section(detected)[0] == '-';
    }
  }

  /**
   * A kind the chain resolver hands to the oracle (one without "Input")
   * is never classified as a source by the heuristics.
   */
  lemma OracleKindsAreNotSources(compType: string)
    requires !Contains(compType, "Input")
    ensures HeuristicKind(compType) != Source
  {
    if EndsWith(compType, "Input") {
      EndsWithContains(compType, "Input");
    }
  }

  /**
   * The suffix rules are exclusive: a type is a source exactly when it ends
   * with "Input", and a target exactly when it ends with "Output" or "Put",
   * whatever markers it also contains.
   */
  lemma SuffixKinds(compType: string)
    ensures HeuristicKind(compType) == Source <==> EndsWith(compType, "Input")
    ensures HeuristicKind(compType) == Target <==> EndsWith(compType, "Output") || EndsWith(compType, "Put")
  {
    var n := |compType|;
    assert EndsWith(compType, "Input") ==> compType[n - 4] == "Input"[1] && compType[n - 3] == "Input"[2];
    assert EndsWith(compType, "Output") ==> compType[n - 4] == "Output"[2];
    assert EndsWith(compType, "Put") ==> compType[n - 3] == "Put"[0];
  }
}
