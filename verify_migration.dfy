/**
 * `MigrationTester`: checks a generated dbt project. Every `ref(...)` in a
 * model must name an existing model, and every model, with its Jinja
 * replaced by placeholders, must be accepted by the SQL engine as the body
 * of a view.
 *
 * The file system and DuckDB are parameters: a reader from path to text,
 * and an engine that maps a statement to `None` (accepted) or to the text
 * of the error it raises.
 */
module VerifyMigration {
  import opened Strings
  import opened Wrappers
  import MigrationEngine

  /** What reading a file gives: its text, or the message of the error raised. */
  datatype ReadResult = Text(text: string) | Unreadable(message: string)

  type Reader = string -> ReadResult

  /** The SQL engine: `None` when it accepts a statement, or the message of the error it raises. */
  type SqlEngine = string -> Option<string>

  // ---------------------------------------------------------------------
  // `re.findall(r"ref\(['\"](.*?)['\"]\)", raw_sql)`

  predicate IsQuote(c: char)
  {
    c == '\'' || c == '"'
  }

  const RefOpen := "ref("

  /**
   * The lazy `(.*?)['\"]\)` from index `j`: the first `k` at which a quote
   * and `)` follow, with no line break before it; `None` when no such `k`
   * comes before the next line break.
   */
  function RefEnd(s: string, j: nat): (r: Option<nat>)
    ensures r.Some? ==> j <= r.value && r.value + 1 < |s| && IsQuote(s[r.value]) && s[r.value + 1] == ')'
    ensures r.Some? ==> '\n' !in s[j..r.value]
    ensures r.Some? ==> forall k :: j <= k < r.value ==> !(IsQuote(s[k]) && s[k + 1] == ')')
    ensures r.None? ==> forall k :: j <= k && k + 1 < |s| && '\n' !in s[j..k] ==> !(IsQuote(s[k]) && s[k + 1] == ')')
    decreases |s| - j
  {
    if j + 1 >= |s| then None
    else if s[j] == '\n' then
      assert forall k :: j < k <= |s| ==> s[j..k][0] == '\n';
      None
    else if IsQuote(s[j]) && s[j + 1] == ')' then Some(j)
    else
      var r := RefEnd(s, j + 1);
      assert r.Some? ==> s[j..r.value] == [s[j]] + s[j + 1..r.value];
      assert forall k :: j < k <= |s| ==> s[j..k] == [s[j]] + s[j + 1..k];
      r
  }

  /** Every non-overlapping match from the left, giving the text of its group. */
  function FindRefs(s: string): (refs: seq<string>)
    ensures forall r :: r in refs ==> '\n' !in r
    decreases |s|
  {
    if |s| < |RefOpen| + 1 then []
    else if StartsWith(s, RefOpen) && IsQuote(s[|RefOpen|]) then
      match RefEnd(s, |RefOpen| + 1)
      case Some(k) => [s[|RefOpen| + 1..k]] + FindRefs(s[k + 2..])
      case None => FindRefs(s[1..])
    else FindRefs(s[1..])
  }

  /** The lazy group ends at the first closing quote when the referenced name holds no quote and no line break. */
  lemma {:induction false} RefEndAfter(a: string, b: string, j: nat)
    requires j <= |a| && '\n' !in a[j..] && forall c :: c in a[j..] ==> !IsQuote(c)
    requires |b| >= 2 && IsQuote(b[0]) && b[1] == ')'
    ensures RefEnd(a + b, j) == Some(|a|)
    decreases |a| - j
  {
    var s := a + b;
    if j < |a| {
      assert s[j] == a[j] && a[j] in a[j..];
      assert a[j + 1..] == a[j..][1..];
      RefEndAfter(a, b, j + 1);
    } else {
      assert s[j] == b[0] && s[j + 1] == b[1];
    }
  }

  /** `ref('name')` in front of any text yields `name`, then the references of that text. */
  lemma {:induction false} FindRefsOne(name: string, q: char, q': char, rest: string)
    requires IsQuote(q) && IsQuote(q') && '\n' !in name && forall c :: c in name ==> !IsQuote(c)
    ensures FindRefs(RefOpen + [q] + name + [q', ')'] + rest) == [name] + FindRefs(rest)
  {
    var a := RefOpen + [q] + name;
    var b := [q', ')'] + rest;
    var s := a + b;
    assert s == RefOpen + [q] + name + [q', ')'] + rest;
    assert a[|RefOpen| + 1..] == name;
    RefEndAfter(a, b, |RefOpen| + 1);
    assert s[..|RefOpen|] == RefOpen;
    assert s[|RefOpen|] == q;
    assert s[|RefOpen| + 1..|a|] == name;
    assert s[|a| + 2..] == rest;
  }

  /** Text without an `r` in front of a text adds no reference: the scan passes over it. */
  lemma {:induction false} FindRefsSkip(p: string, s: string)
    requires 'r' !in p
    ensures FindRefs(p + s) == FindRefs(s)
    decreases |p|
  {
    if |p| > 0 {
      var t := p + s;
      assert t[0] == p[0] != RefOpen[0];
      assert !StartsWith(t, RefOpen) by {
        assert |RefOpen| <= |t| ==> t[..|RefOpen|][0] == t[0];
      }
      assert t[1..] == p[1..] + s;
      FindRefsSkip(p[1..], s);
    } else {
      assert p + s == s;
    }
  }

  /** A model selecting from one referenced model names exactly that model. */
  lemma OneRefInQuery(head: string, name: string)
    requires 'r' !in head && '\n' !in name && forall c :: c in name ==> !IsQuote(c)
    ensures FindRefs(head + "{{ ref('" + name + "') }}") == [name]
  {
    var rest := " }}";
    assert head + "{{ ref('" + name + "') }}" == (head + "{{ ") + (RefOpen + ['\''] + name + ['\'', ')'] + rest);
    assert 'r' !in head + "{{ ";
    FindRefsSkip(head + "{{ ", RefOpen + ['\''] + name + ['\'', ')'] + rest);
    FindRefsOne(name, '\'', '\'', rest);
    assert FindRefs(rest) == [];
  }

  /** A text that never opens a `ref(` references nothing. */
  lemma {:induction false} FindRefsAbsent(s: string)
    requires !Contains(s, RefOpen)
    ensures FindRefs(s) == []
    decreases |s|
  {
    if |s| >= |RefOpen| + 1 {
      FindRefsAbsent(s[1..]);
    }
  }

  // ---------------------------------------------------------------------
  // `re.sub(r"\{\{.*?\}\}", ...)` and `re.sub(r"\{%.*?%\}", ...)`

  /** The lazy `.*?` followed by `close`, from index `j`: where the first `close` on the same line starts. */
  function CloseAt(s: string, j: nat, close: string): (r: Option<nat>)
    ensures r.Some? ==> j <= r.value && OccursAt(s, close, r.value) && '\n' !in s[j..r.value]
    ensures r.Some? ==> forall k :: j <= k < r.value ==> !OccursAt(s, close, k)
    ensures r.None? ==> forall k :: j <= k <= |s| && '\n' !in s[j..k] ==> !OccursAt(s, close, k)
    decreases |s| - j
  {
    if j + |close| > |s| then None
    else if OccursAt(s, close, j) then Some(j)
    else if s[j] == '\n' then
      assert forall k :: j < k <= |s| ==> s[j..k][0] == '\n';
      None
    else
      var r := CloseAt(s, j + 1, close);
      assert r.Some? ==> s[j..r.value] == [s[j]] + s[j + 1..r.value];
      assert forall k :: j < k <= |s| ==> s[j..k] == [s[j]] + s[j + 1..k];
      r
  }

  /** Every non-overlapping `open … close` on one line, from the left, replaced by `rep`. */
  function Sub(s: string, open: string, close: string, rep: string): string
    requires |open| > 0
    decreases |s|
  {
    if |s| == 0 then ""
    else if StartsWith(s, open) then
      match CloseAt(s, |open|, close)
      case Some(k) => rep + Sub(s[k + |close|..], open, close, rep)
      case None => [s[0]] + Sub(s[1..], open, close, rep)
    else [s[0]] + Sub(s[1..], open, close, rep)
  }

  /** A text that never opens a delimiter is left as it is. */
  lemma {:induction false} SubAbsent(s: string, open: string, close: string, rep: string)
    requires |open| > 0 && !Contains(s, open)
    ensures Sub(s, open, close, rep) == s
    decreases |s|
  {
    if |s| > 0 {
      SubAbsent(s[1..], open, close, rep);
      assert s == [s[0]] + s[1..];
    }
  }

  /** The first `close` after `j` is found when the text before it holds neither a line break nor `close`'s first character. */
  lemma {:induction false} CloseAtAfter(a: string, close: string, rest: string, j: nat)
    requires |close| > 0 && j <= |a| && '\n' !in a[j..] && close[0] !in a[j..]
    ensures CloseAt(a + close + rest, j, close) == Some(|a|)
    decreases |a| - j
  {
    var s := a + close + rest;
    assert s[|a|..|a| + |close|] == close;
    if j < |a| {
      assert s[j] == a[j] && a[j] in a[j..];
      assert !OccursAt(s, close, j) by {
        assert s[j..j + |close|][0] == s[j];
      }
      assert a[j + 1..] == a[j..][1..];
      CloseAtAfter(a, close, rest, j + 1);
    }
  }

  /** Text that cannot start the opening delimiter is copied as it is, and the scan goes on after it. */
  lemma {:induction false} SubSkip(p: string, s: string, open: string, close: string, rep: string)
    requires |open| > 0 && open[0] !in p
    ensures Sub(p + s, open, close, rep) == p + Sub(s, open, close, rep)
    decreases |p|
  {
    if |p| > 0 {
      var t := p + s;
      assert t[0] == p[0] != open[0];
      assert !StartsWith(t, open) by {
        assert |open| <= |t| ==> t[..|open|][0] == t[0];
      }
      assert t[1..] == p[1..] + s;
      SubSkip(p[1..], s, open, close, rep);
      assert p == [p[0]] + p[1..];
    } else {
      assert p + s == s;
    }
  }

  /** A delimited span on one line at the front is replaced by `rep`, and the rest is substituted in turn. */
  lemma {:induction false} SubFrame(open: string, inner: string, close: string, rest: string, rep: string)
    requires |open| > 0 && |close| > 0 && '\n' !in inner && close[0] !in inner
    ensures Sub(open + inner + close + rest, open, close, rep) == rep + Sub(rest, open, close, rep)
  {
    var a := open + inner;
    var s := a + close + rest;
    assert s == open + inner + close + rest;
    assert a[|open|..] == inner;
    CloseAtAfter(a, close, rest, |open|);
    assert s[..|open|] == open;
    assert s[|a| + |close|..] == rest;
  }

  const Placeholder := "dummy_table"

  /** The mocked Jinja: every `{{ … }}` becomes `dummy_table`, then every `{% … %}` disappears. */
  function Neutralise(raw: string): string
  {
    Sub(Sub(raw, "{{", "}}", Placeholder), "{%", "%}", "")
  }

  /** The statement the engine is asked to run on a model. */
  function Statement(clean: string): string
  {
    "CREATE OR REPLACE TEMPORARY VIEW test_view AS " + clean + " LIMIT 0"
  }

  // ---------------------------------------------------------------------
  // The issues of one file

  function LinkIssue(filename: string, ref: string): string
  {
    "[LINK] " + filename + " -> missing model '" + ref + "'"
  }

  /** The issue an error raises, unless it is about the placeholder. */
  function SyntaxIssues(filename: string, message: string): (r: seq<string>)
    ensures r == [] <==> Contains(message, Placeholder)
  {
    if Contains(message, Placeholder) then [] else ["[SYNTAX] " + filename + ": " + message]
  }

  /** The references that name no existing model, in order and with repeats. */
  function MissingRefs(refs: seq<string>, existing: set<string>): (m: seq<string>)
    ensures IsSubseq(m, refs)
    ensures forall x :: x in m ==> x !in existing
  {
    if |refs| == 0 then []
    else
      var rest := MissingRefs(refs[1..], existing);
      if refs[0] in existing then rest
      else
        var m := [refs[0]] + rest;
        assert m[0] == refs[0] && m[1..] == rest;
        m
  }

  /** `MissingRefs` keeps every occurrence of a missing name and no occurrence of an existing one. */
  lemma {:induction false} MissingRefsCount(refs: seq<string>, existing: set<string>, x: string)
    ensures multiset(MissingRefs(refs, existing))[x] == if x in existing then 0 else multiset(refs)[x]
    decreases |refs|
  {
    if |refs| > 0 {
      MissingRefsCount(refs[1..], existing, x);
      assert refs == [refs[0]] + refs[1..];
    }
  }

  /** One link issue per reference, in order, that names no existing model. */
  function LinkIssues(filename: string, refs: seq<string>, existing: set<string>): (r: seq<string>)
    ensures |r| == |MissingRefs(refs, existing)|
    ensures forall i :: 0 <= i < |r| ==> r[i] == LinkIssue(filename, MissingRefs(refs, existing)[i])
    ensures r == [] <==> forall x :: x in refs ==> x in existing
    ensures |r| <= |refs|
  {
    if |refs| == 0 then []
    else
      var rest := LinkIssues(filename, refs[1..], existing);
      assert forall x :: x in refs <==> x == refs[0] || x in refs[1..];
      if refs[0] in existing then rest else [LinkIssue(filename, refs[0])] + rest
  }

  /** The issues of a file's text: its broken references, then its rejected syntax. */
  function TextIssues(filename: string, raw: string, existing: set<string>, duck: SqlEngine): seq<string>
  {
    LinkIssues(filename, FindRefs(raw), existing)
      + match duck(Statement(Neutralise(raw)))
        case None => []
        case Some(message) => SyntaxIssues(filename, message)
  }

  /** `_verify_single_file`: a file that cannot be read gives only the issue of the error it raised. */
  function FileIssues(filepath: string, read: Reader, existing: set<string>, duck: SqlEngine): seq<string>
  {
    match read(filepath)
    case Unreadable(message) => SyntaxIssues(Basename(filepath), message)
    case Text(raw) => TextIssues(Basename(filepath), raw, existing, duck)
  }

  /** The file passes both checks. */
  predicate FileClean(filepath: string, read: Reader, existing: set<string>, duck: SqlEngine)
  {
    match read(filepath)
    case Unreadable(message) => Contains(message, Placeholder)
    case Text(raw) =>
      && (forall x :: x in FindRefs(raw) ==> x in existing)
      && (duck(Statement(Neutralise(raw))).None? || Contains(duck(Statement(Neutralise(raw))).value, Placeholder))
  }

  /** A file has no issue exactly when every reference resolves and its syntax is accepted. */
  lemma FileIssuesSpec(filepath: string, read: Reader, existing: set<string>, duck: SqlEngine)
    ensures FileIssues(filepath, read, existing, duck) == [] <==> FileClean(filepath, read, existing, duck)
  {
  }

  /** The issues of every file, in turn. */
  function AllIssues(paths: seq<string>, read: Reader, existing: set<string>, duck: SqlEngine): seq<string>
  {
    if |paths| == 0 then []
    else AllIssues(paths[..|paths| - 1], read, existing, duck) + FileIssues(paths[|paths| - 1], read, existing, duck)
  }

  /** A project has no issue exactly when every one of its files is clean. */
  lemma {:induction false} AllIssuesSpec(paths: seq<string>, read: Reader, existing: set<string>, duck: SqlEngine)
    ensures AllIssues(paths, read, existing, duck) == [] <==> forall p :: p in paths ==> FileClean(p, read, existing, duck)
    decreases |paths|
  {
    if |paths| > 0 {
      var init := paths[..|paths| - 1];
      var last := paths[|paths| - 1];
      AllIssuesSpec(init, read, existing, duck);
      FileIssuesSpec(last, read, existing, duck);
      assert paths == init + [last];
      assert forall p :: p in paths <==> p in init || p == last;
    }
  }

  /** The model name a file is indexed under: its base name without `.sql`. */
  function IndexName(filepath: string): string
  {
    Replace(Basename(filepath), ".sql", "")
  }

  function ModelIndex(paths: seq<string>): (names: set<string>)
    ensures forall p :: p in paths ==> IndexName(p) in names
    ensures forall n :: n in names ==> exists p :: p in paths && IndexName(p) == n
  {
    set p | p in paths :: IndexName(p)
  }

  /**
   * A model the engine writes is indexed under its job's name, when that
   * name holds no `/` and does not itself contain `.sql`.
   */
  lemma ModelPathIndexed(name: string)
    requires '/' !in name && !Contains(name, ".sql")
    ensures IndexName(MigrationEngine.ModelPath(name)) == name
  {
    var suffix := ".sql";
    assert suffix[1..] == "sql";
    BasenameWithoutSuffix("models/", name, suffix);
  }

  /** The link check's loop over the references of one file. */
  method CheckLinks(filename: string, refs: seq<string>, existing: set<string>) returns (issues: seq<string>)
    ensures issues == LinkIssues(filename, refs, existing)
  {
    issues := [];
    var i := 0;
    while i < |refs|
      invariant 0 <= i <= |refs|
      invariant issues + LinkIssues(filename, refs[i..], existing) == LinkIssues(filename, refs, existing)
    {
      assert refs[i..][1..] == refs[i + 1..];
      if refs[i] !in existing {
        issues := issues + [LinkIssue(filename, refs[i])];
      }
      i := i + 1;
    }
  }

  // ---------------------------------------------------------------------
  // The tester object

  const MissingModelsDir := "Missing 'models' directory."

  class MigrationTester {
    var issues: seq<string>
    var existingModels: set<string>

    constructor ()
      ensures issues == [] && existingModels == {}
    {
      issues := [];
      existingModels := {};
    }

    /** `_log_error` */
    method LogError(msg: string)
      modifies this
      ensures issues == old(issues) + [msg] && existingModels == old(existingModels)
    {
      issues := issues + [msg];
    }

    /** `_verify_single_file`, against the current model index. */
    method VerifySingleFile(filepath: string, read: Reader, duck: SqlEngine) returns (localIssues: seq<string>)
      ensures localIssues == FileIssues(filepath, read, existingModels, duck)
    {
      var filename := Basename(filepath);
      localIssues := [];
      var content := read(filepath);
      if content.Unreadable? {
        return SyntaxIssues(filename, content.message);
      }
      var rawSql := content.text;
      localIssues := CheckLinks(filename, FindRefs(rawSql), existingModels);
      var cleanSql := Neutralise(rawSql);
      var err := duck(Statement(cleanSql));
      if err.Some? {
        localIssues := localIssues + SyntaxIssues(filename, err.value);
      }
    }

    /** The parallel checks of every file, gathered in the order of `paths`. */
    method CheckFiles(paths: seq<string>, read: Reader, duck: SqlEngine) returns (found: seq<string>)
      ensures found == AllIssues(paths, read, existingModels, duck)
    {
      found := [];
      var i := 0;
      while i < |paths|
        invariant 0 <= i <= |paths|
        invariant found == AllIssues(paths[..i], read, existingModels, duck)
      {
        assert paths[..i + 1][..i] == paths[..i];
        var fileIssues := VerifySingleFile(paths[i], read, duck);
        found := found + fileIssues;
        i := i + 1;
      }
      assert paths[..i] == paths;
    }

    /**
     * `run_checks`: `modelsDirExists` says whether the models directory
     * exists and `paths` lists its `.sql` files. The result is true exactly
     * when no issue has been logged.
     */
    method RunChecks(modelsDirExists: bool, paths: seq<string>, read: Reader, duck: SqlEngine) returns (ok: bool)
      modifies this
      ensures !modelsDirExists ==> !ok && issues == old(issues) + [MissingModelsDir] && existingModels == old(existingModels)
      ensures modelsDirExists ==> existingModels == ModelIndex(paths)
      ensures modelsDirExists ==> issues == old(issues) + AllIssues(paths, read, ModelIndex(paths), duck)
      ensures modelsDirExists ==> (ok <==> issues == [])
    {
      if !modelsDirExists {
        LogError(MissingModelsDir);
        return false;
      }
      existingModels := ModelIndex(paths);
      var found := CheckFiles(paths, read, duck);
      issues := issues + found;
      ok := |issues| == 0;
    }
  }
}
