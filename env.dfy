/** The `.env` reader that tools/db_manager.py (lines 11-14) and
    tools/verify_supabase.py (lines 12-15) both carry: every line of the file is
    looked at in order, blank and comment lines are skipped, and every other line
    is split at its first `=` and written into the process environment, later
    lines overwriting earlier ones. A line with no `=` cannot be unpacked into a
    key and a value and raises; so does the write of an empty name or of a name
    or value holding a NUL. Either way the lines before it stay applied. Reading the
    file is outside the model: the reader gets its lines, each with its line
    ending as Python yields it. */
module EnvFile {
  import opened Wrappers
  import opened Text

  /** What one line contributes. */
  datatype Line = Skipped | Assignment(key: string, value: string) | Malformed

  /** `s.split(sep, 1)`: `None` when `sep` does not occur (a one-piece list),
      otherwise the text before the first `sep` and everything after it. */
  function SplitOnce(s: string, sep: char): (r: Option<(string, string)>)
    ensures r.None? <==> sep !in s
    ensures r.Some? ==> s == r.value.0 + [sep] + r.value.1 && sep !in r.value.0
  {
    if s == [] then None
    else if s[0] == sep then Some(([], s[1..]))
    else
      match SplitOnce(s[1..], sep)
      case None => None
      case Some(parts) =>
        assert s == [s[0]] + s[1..];
        Some(([s[0]] + parts.0, parts.1))
  }

  /** `line.startswith('#')`, on the line as read, before any stripping. */
  predicate IsComment(line: string) {
    |line| > 0 && line[0] == '#'
  }

  /** One turn of the loop body: skipped when `line.strip()` is empty or the raw
      line starts with `#`; otherwise `key, value = line.strip().split('=', 1)`,
      neither half stripped again. */
  function ParseLine(line: string): (r: Line)
    ensures r.Skipped? <==> Strip(line) == [] || IsComment(line)
    ensures r.Malformed? <==> !r.Skipped? && '=' !in Strip(line)
    ensures r.Assignment? ==> Strip(line) == r.key + "=" + r.value && '=' !in r.key
  {
    if Strip(line) == [] || IsComment(line) then Skipped
    else
      match SplitOnce(Strip(line), '=')
      case None => Malformed
      case Some(parts) => Assignment(parts.0, parts.1)
  }

  /** `os.environ[key] = value` raises (`OSError` or `ValueError`) for an empty
      name and for a name or value with an embedded NUL; any other pair is
      written. */
  predicate Settable(key: string, value: string) {
    key != [] && '\0' !in key && '\0' !in value
  }

  /** The line makes the loop raise: it cannot be unpacked, or its pair cannot be
      written. */
  predicate Raises(line: Line) {
    line.Malformed? || (line.Assignment? && !Settable(line.key, line.value))
  }

  /** Every line of the file, classified. */
  function Parse(lines: seq<string>): (r: seq<Line>)
    ensures |r| == |lines|
  {
    if lines == [] then [] else Parse(lines[..|lines| - 1]) + [ParseLine(lines[|lines| - 1])]
  }

  lemma {:induction false} ParseAt(lines: seq<string>, i: nat)
    requires i < |lines|
    ensures Parse(lines)[i] == ParseLine(lines[i])
  {
    if i < |lines| - 1 {
      ParseAt(lines[..|lines| - 1], i);
    }
  }

  /** The environment after a prefix of the file, and the index of the line that
      raised, if one did. */
  datatype Loaded = Loaded(vars: map<string, string>, failedAt: Option<nat>)

  /** One line's effect on the environment read so far; `index` is its position. */
  function Step(prev: Loaded, line: Line, index: nat): Loaded {
    if prev.failedAt.Some? then prev
    else
      match line
      case Skipped => prev
      case Assignment(key, value) =>
        if Settable(key, value) then Loaded(prev.vars[key := value], None) else Loaded(prev.vars, Some(index))
      case Malformed => Loaded(prev.vars, Some(index))
  }

  /** The loop over the classified lines, starting from the environment `env`. */
  function Load(env: map<string, string>, parsed: seq<Line>): (r: Loaded)
    ensures r.failedAt.Some? ==> r.failedAt.value < |parsed| && Raises(parsed[r.failedAt.value])
  {
    if parsed == [] then Loaded(env, None)
    else Step(Load(env, parsed[..|parsed| - 1]), parsed[|parsed| - 1], |parsed| - 1)
  }

  /** Reading one more line is one more `Step`. */
  lemma LoadOneMore(env: map<string, string>, parsed: seq<Line>, i: nat)
    requires i < |parsed|
    ensures Load(env, parsed[..i + 1]) == Step(Load(env, parsed[..i]), parsed[i], i)
  {
    assert parsed[..i + 1][..i] == parsed[..i];
  }

  /** Once a line has raised, the lines after it are never read. */
  lemma {:induction false} LoadStopsAtFailure(env: map<string, string>, parsed: seq<Line>, rest: seq<Line>)
    requires Load(env, parsed).failedAt.Some?
    ensures Load(env, parsed + rest) == Load(env, parsed)
  {
    if rest != [] {
      var init := rest[..|rest| - 1];
      assert (parsed + rest)[..|parsed + rest| - 1] == parsed + init;
      LoadStopsAtFailure(env, parsed, init);
    } else {
      assert parsed + rest == parsed;
    }
  }

  /** The environment as it stands when line `i` raises is the final one. */
  lemma FailureIsFinal(env: map<string, string>, parsed: seq<Line>, i: nat)
    requires i < |parsed| && Load(env, parsed[..i + 1]).failedAt.Some?
    ensures Load(env, parsed) == Load(env, parsed[..i + 1])
  {
    LoadStopsAtFailure(env, parsed[..i + 1], parsed[i + 1..]);
    assert parsed[..i + 1] + parsed[i + 1..] == parsed;
  }

  /** The load fails exactly when some line raises, and it stops at the first one. */
  lemma {:induction false} FailureIsFirstRaising(env: map<string, string>, parsed: seq<Line>)
    ensures Load(env, parsed).failedAt.None? <==> forall i :: 0 <= i < |parsed| ==> !Raises(parsed[i])
    ensures Load(env, parsed).failedAt.Some? ==>
              forall i :: 0 <= i < Load(env, parsed).failedAt.value ==> !Raises(parsed[i])
  {
    if parsed != [] {
      var init := parsed[..|parsed| - 1];
      FailureIsFirstRaising(env, init);
      assert forall i :: 0 <= i < |init| ==> init[i] == parsed[i];
    }
  }

  /** The value the last assignment to `key` writes, if any line assigns it. */
  function LastAssigned(parsed: seq<Line>, key: string): Option<string> {
    if parsed == [] then None
    else
      match parsed[|parsed| - 1]
      case Assignment(k, v) => if k == key then Some(v) else LastAssigned(parsed[..|parsed| - 1], key)
      case _ => LastAssigned(parsed[..|parsed| - 1], key)
  }

  /** When no line raises, a key holds the value of its last assignment in the file;
      a key the file never assigns keeps the value it had before, or stays unset. */
  lemma {:induction false} LastAssignmentWins(env: map<string, string>, parsed: seq<Line>, key: string)
    requires Load(env, parsed).failedAt.None?
    ensures LastAssigned(parsed, key).Some? ==>
              key in Load(env, parsed).vars && Load(env, parsed).vars[key] == LastAssigned(parsed, key).value
    ensures LastAssigned(parsed, key).None? ==>
              (key in Load(env, parsed).vars <==> key in env) &&
              (key in env ==> Load(env, parsed).vars[key] == env[key])
  {
    if parsed != [] {
      LastAssignmentWins(env, parsed[..|parsed| - 1], key);
    }
  }

  /** Splitting at the first separator finds the text before it and all that follows. */
  lemma {:induction false} SplitOnceAtFirst(a: string, b: string, sep: char)
    requires sep !in a
    ensures SplitOnce(a + [sep] + b, sep) == Some((a, b))
  {
    var s := a + [sep] + b;
    if a == [] {
      assert s[0] == sep && s[1..] == b;
    } else {
      assert s[0] == a[0] && s[1..] == a[1..] + [sep] + b;
      SplitOnceAtFirst(a[1..], b, sep);
      assert [a[0]] + a[1..] == a;
    }
  }

  /** Stripping a line whose text neither starts nor ends with a blank removes
      exactly its line ending, and an indentation of one blank. */
  lemma StripFramed(body: string)
    requires body != [] && !IsPySpace(body[0]) && !IsPySpace(body[|body| - 1])
    ensures Strip(body + "\n") == body
    ensures Strip(" " + body + "\n") == body
  {
    var t := body + "\n";
    StripStartStep(t);
    assert t[..|t| - 1] == body;
    StripEndStep(t);
    StripEndStep(body);
    var line := " " + t;
    assert line == " " + body + "\n" && line[1..] == t;
    StripStartStep(line);
  }

  /** A line that is not a comment and strips to `key=value`, with no `=` in
      `key`, assigns `value` to `key`. */
  lemma ParseAssignment(line: string, key: string, value: string)
    requires '=' !in key && !IsComment(line) && Strip(line) == key + "=" + value
    ensures ParseLine(line) == Assignment(key, value)
  {
    SplitOnceAtFirst(key, value, '=');
  }

  /** A `KEY=VALUE` line reads back as that pair: only the first `=` splits, so
      the value may itself hold `=`, and nothing inside the line is stripped. */
  lemma AssignmentLine(key: string, value: string)
    requires key != [] && '=' !in key && !IsPySpace(key[0]) && key[0] != '#'
    requires value != [] && !IsPySpace(value[|value| - 1])
    ensures ParseLine(key + "=" + value + "\n") == Assignment(key, value)
  {
    var body := key + "=" + value;
    assert body[0] == key[0] && body[|body| - 1] == value[|value| - 1];
    StripFramed(body);
    var line := key + "=" + value + "\n";
    assert line == body + "\n";
    ParseAssignment(line, key, value);
  }

  /** A `#` after indentation does not make a comment: the line is an assignment
      whose key starts with `#`. */
  lemma IndentedHashIsAssignment(key: string, value: string)
    requires '=' !in key
    requires value != [] && !IsPySpace(value[|value| - 1])
    ensures ParseLine(" " + ("#" + key + "=" + value) + "\n") == Assignment("#" + key, value)
  {
    var hashKey := "#" + key;
    assert '=' !in hashKey by {
      assert forall i :: 0 <= i < |hashKey| ==> hashKey[i] == if i == 0 then '#' else key[i - 1];
    }
    var body := hashKey + "=" + value;
    assert body[0] == '#' && body[|body| - 1] == value[|value| - 1];
    StripFramed(body);
    var line := " " + body + "\n";
    assert line[0] == ' ';
    ParseAssignment(line, hashKey, value);
  }

  /** A `=VALUE` line unpacks into an empty name, whose write raises. */
  lemma EmptyNameRaises(value: string)
    requires value != [] && !IsPySpace(value[|value| - 1])
    ensures ParseLine("=" + value + "\n") == Assignment("", value)
    ensures Raises(ParseLine("=" + value + "\n"))
  {
    var body := "=" + value;
    assert body[0] == '=' && body[|body| - 1] == value[|value| - 1];
    StripFramed(body);
    var line := "=" + value + "\n";
    assert line == body + "\n" && line[0] == '=';
    assert body == [] + "=" + value;
    ParseAssignment(line, [], value);
  }

  /** `bool(env.get(key))`: the key is set to a non-empty value. */
  predicate IsSet(env: map<string, string>, key: string) {
    key in env && env[key] != ""
  }

  /** `os.environ`, as far as the two tools use it. */
  class Environ {
    var vars: map<string, string>

    constructor (initial: map<string, string>)
      ensures vars == initial
    {
      vars := initial;
    }

    /** `os.environ.get(key)`. */
    function Get(key: string): (r: Option<string>)
      reads this
      ensures r.Some? <==> key in vars
      ensures r.Some? ==> r.value == vars[key]
    {
      if key in vars then Some(vars[key]) else None
    }

    /** The `for line in f` loop: `failedAt` is the index of the line that raised,
        and the environment holds every assignment before it. */
    method LoadLines(lines: seq<string>) returns (failedAt: Option<nat>)
      modifies this
      ensures Loaded(vars, failedAt) == Load(old(vars), Parse(lines))
    {
      ghost var start := vars;
      ghost var parsed := Parse(lines);
      failedAt := None;
      var i := 0;
      while i < |lines|
        invariant 0 <= i <= |lines|
        invariant Load(start, parsed[..i]) == Loaded(vars, None)
      {
        var line := ParseLine(lines[i]);
        ParseAt(lines, i);
        LoadOneMore(start, parsed, i);
        match line {
          case Malformed =>
            failedAt := Some(i);
            FailureIsFinal(start, parsed, i);
            return;
          case Assignment(key, value) =>
            if !Settable(key, value) {
              failedAt := Some(i);
              FailureIsFinal(start, parsed, i);
              return;
            }
            vars := vars[key := value];
          case Skipped =>
        }
        i := i + 1;
      }
      assert parsed[..i] == parsed;
    }
  }
}
