/** The `stack-vars` parser and the merge with the secrets object
    (index.js:53-68). */
module StackVars {
  import opened Optional
  import opened Strings
  import opened Dicts

  predicate IsQuote(c: char) {
    c == '"' || c == '\''
  }

  /** Whether `/^["'](.*)["']$/` matches `v`: a quote of either kind at each
      end (they need not match) and no line terminator between them. */
  predicate Quoted(v: string) {
    && |v| >= 2
    && IsQuote(v[0])
    && IsQuote(v[|v| - 1])
    && forall k :: 1 <= k < |v| - 1 ==> !IsLineTerminator(v[k])
  }

  /** `v.replace(/^["'](.*)["']$/, '$1')`: exactly one character comes off
      each end of a quoted value, anything else is left alone. */
  function StripQuotes(v: string): (r: string)
    ensures r != v <==> Quoted(v)
    ensures Quoted(v) ==> v == [v[0]] + r + [v[|v| - 1]]
  {
    if Quoted(v) then v[1..|v| - 1] else v
  }

  /** One line of `stack-vars`: dropped unless it holds `:` or `=`; split at
      `:` whenever there is one, otherwise at `=`; the key is the trimmed
      first piece, the value the trimmed, unquoted rest re-joined with the
      separator. */
  function ParseLine(line: string): (r: Option<Entry>)
    ensures r.None? <==> ':' !in line && '=' !in line
  {
    if ':' !in line && '=' !in line then None else Some(SplitAssignment(line))
  }

  /** The key and value of a line that holds a separator. */
  function SplitAssignment(line: string): (e: Entry)
    requires ':' in line || '=' in line
    ensures ':' !in e.name
    ensures ':' !in line ==> '=' !in e.name
  {
    var sep := if ':' in line then ':' else '=';
    var parts := Split(line, sep);
    KeyWithout(line, sep, ':');
    KeyWithout(line, sep, '=');
    Entry(Trim(parts[0]), StripQuotes(Trim(Join(parts[1..], sep))))
  }

  /** The key, cut before the first separator, holds no character the line
      holds none of before that separator. */
  lemma KeyWithout(line: string, sep: char, c: char)
    requires sep in line
    ensures c !in line[..IndexOf(line, sep)] ==> c !in Trim(Split(line, sep)[0])
  {
    SplitAtFirst(line, sep);
    if c !in line[..IndexOf(line, sep)] {
      TrimWithout(Split(line, sep)[0], c);
    }
  }

  /** The split happens at the first `:` even when `=` also occurs, and at
      the first `=` only when there is no `:`; the value is everything after
      that separator, so later separators stay in it. */
  lemma ParseLineAtFirstSeparator(line: string)
    ensures ':' in line ==>
      var i := IndexOf(line, ':');
      ParseLine(line) == Some(Entry(Trim(line[..i]), StripQuotes(Trim(line[i + 1..]))))
    ensures ':' !in line && '=' in line ==>
      var i := IndexOf(line, '=');
      ParseLine(line) == Some(Entry(Trim(line[..i]), StripQuotes(Trim(line[i + 1..]))))
  {
    if ':' in line {
      SplitAtFirst(line, ':');
    } else if '=' in line {
      SplitAtFirst(line, '=');
    }
  }

  function Lines(text: string): seq<string> {
    Split(text, '\n')
  }

  /** What each line contributes, in order. */
  function Assignments(lines: seq<string>): (r: seq<Option<Entry>>)
    ensures |r| == |lines|
    ensures forall j :: 0 <= j < |lines| ==> r[j] == ParseLine(lines[j])
  {
    seq(|lines|, j requires 0 <= j < |lines| => ParseLine(lines[j]))
  }

  /** On a plain object, assigning to `__proto__` runs the inherited
      `Object.prototype` setter, which ignores a string value: no property
      is created. */
  const ProtoKey := "__proto__"

  /** Whether a line's contribution assigns the key `k`. */
  predicate Assigns(a: Option<Entry>, k: string) {
    a.Some? && a.value.name == k && k != ProtoKey
  }

  /** The object built by running the loop over the lines' contributions in
      order: each iteration does `parsedVars[key.trim()] = value` for a line
      that holds a separator, and nothing for one that does not or whose key
      is `__proto__`. It never lists a key twice. */
  function Collect(cs: seq<Option<Entry>>): (d: Dict)
    ensures UniqueNames(d)
  {
    if |cs| == 0 then []
    else
      var d := Collect(cs[..|cs| - 1]);
      match cs[|cs| - 1]
      case None => d
      case Some(e) =>
        if e.name == ProtoKey then d
        else PutUnique(d, e.name, e.value); Put(d, e.name, e.value)
  }

  /** `parsedVars` after index.js:54-64. */
  function ParsedVars(stackVars: string): (d: Dict)
    ensures UniqueNames(d)
    ensures stackVars == "" ==> d == []
  {
    if stackVars == "" then [] else Collect(Assignments(Lines(stackVars)))
  }

  /** The `forEach` of index.js:56-63: for each line holding a separator,
      in order, assign its key in the object in place. */
  method AssignLines(lines: seq<string>) returns (parsedVars: Dict)
    ensures parsedVars == Collect(Assignments(lines))
  {
    ghost var cs := Assignments(lines);
    parsedVars := [];
    var i := 0;
    while i < |lines|
      invariant 0 <= i <= |lines|
      invariant parsedVars == Collect(cs[..i])
    {
      assert cs[..i + 1][..i] == cs[..i];
      var line := lines[i];
      if ':' in line || '=' in line {
        var e := SplitAssignment(line);
        assert cs[i] == Some(e);
        if e.name != ProtoKey {
          parsedVars := Put(parsedVars, e.name, e.value);
        }
      } else {
        assert cs[i] == None;
      }
      i := i + 1;
    }
    assert cs[..|cs|] == cs;
  }

  /** index.js:54-64: an empty text leaves the object empty, any other is
      split into lines and parsed; no key ends up listed twice. */
  method ParseVars(stackVars: string) returns (parsedVars: Dict)
    ensures parsedVars == ParsedVars(stackVars)
    ensures UniqueNames(parsedVars)
  {
    parsedVars := [];
    if stackVars != "" {
      parsedVars := AssignLines(Split(stackVars, '\n'));
    }
  }

  /** The `if (stackVars)` guard changes nothing: the empty text is one
      empty line, which holds no separator. */
  lemma ParsedVarsOfLines(stackVars: string)
    ensures ParsedVars(stackVars) == Collect(Assignments(Lines(stackVars)))
  {
    if stackVars == "" {
      assert Lines(stackVars) == [""];
      assert Assignments(Lines(stackVars))[..0] == [];
    }
  }

  /** When several lines assign the same key, the last one's value is kept. */
  lemma {:induction false} CollectLastWins(cs: seq<Option<Entry>>, k: string, i: nat)
    requires i < |cs| && Assigns(cs[i], k)
    requires forall j :: i < j < |cs| ==> !Assigns(cs[j], k)
    ensures Get(Collect(cs), k) == Some(cs[i].value.value)
  {
    var init := cs[..|cs| - 1];
    if i < |cs| - 1 {
      assert forall j :: i < j < |init| ==> init[j] == cs[j];
      CollectLastWins(init, k, i);
      assert !Assigns(cs[|cs| - 1], k);
    }
  }

  /** A key no line assigns is absent. */
  lemma {:induction false} CollectUnassigned(cs: seq<Option<Entry>>, k: string)
    requires forall j :: 0 <= j < |cs| ==> !Assigns(cs[j], k)
    ensures Get(Collect(cs), k) == None
  {
    if |cs| > 0 {
      var init := cs[..|cs| - 1];
      assert forall j :: 0 <= j < |init| ==> init[j] == cs[j];
      CollectUnassigned(init, k);
    }
  }

  /** Lines that contribute nothing leave nothing: when no line holds a
      separator, the object is empty. */
  lemma {:induction false} CollectNothing(cs: seq<Option<Entry>>)
    requires forall j :: 0 <= j < |cs| ==> cs[j].None?
    ensures Collect(cs) == []
  {
    if |cs| > 0 {
      var init := cs[..|cs| - 1];
      assert forall j :: 0 <= j < |init| ==> init[j] == cs[j];
      CollectNothing(init);
    }
  }

  /** The key of the last line of `stack-vars` that assigns it carries that
      line's value. */
  lemma LastAssignmentWins(stackVars: string, k: string, i: nat)
    requires i < |Lines(stackVars)| && Assigns(ParseLine(Lines(stackVars)[i]), k)
    requires forall j :: i < j < |Lines(stackVars)| ==> !Assigns(ParseLine(Lines(stackVars)[j]), k)
    ensures Get(ParsedVars(stackVars), k) == Some(ParseLine(Lines(stackVars)[i]).value.value)
  {
    ParsedVarsOfLines(stackVars);
    CollectLastWins(Assignments(Lines(stackVars)), k, i);
  }

  /** A key no line of `stack-vars` assigns is not in the object. */
  lemma UnassignedKeyAbsent(stackVars: string, k: string)
    requires forall j :: 0 <= j < |Lines(stackVars)| ==> !Assigns(ParseLine(Lines(stackVars)[j]), k)
    ensures Get(ParsedVars(stackVars), k) == None
  {
    ParsedVarsOfLines(stackVars);
    CollectUnassigned(Assignments(Lines(stackVars)), k);
  }

  /** A `__proto__` line never yields a variable. */
  lemma ProtoNeverParsed(stackVars: string)
    ensures Get(ParsedVars(stackVars), ProtoKey) == None
  {
    UnassignedKeyAbsent(stackVars, ProtoKey);
  }

  /** Text in which no line holds `:` or `=` (blank text included) yields
      the empty object. */
  lemma NoSeparatorNoVars(stackVars: string)
    requires forall j :: 0 <= j < |Lines(stackVars)| ==> ':' !in Lines(stackVars)[j] && '=' !in Lines(stackVars)[j]
    ensures ParsedVars(stackVars) == []
  {
    ParsedVarsOfLines(stackVars);
    CollectNothing(Assignments(Lines(stackVars)));
  }

  /** `{ ...parsedVars, ...vaultSecrets }` listed as `Object.entries`: the
      keys of both, the parsed keys first and in their own order. */
  function MergeEnv(parsed: Dict, secrets: Dict): (env: Dict)
    ensures Keys(env) == Keys(parsed) + Keys(secrets)
    ensures |env| >= |parsed| && forall i :: 0 <= i < |parsed| ==> env[i].name == parsed[i].name
  {
    SpreadOrder(parsed, secrets);
    Spread(parsed, secrets)
  }

  /** Secrets always win; a parsed key without a secret keeps its parsed
      value. */
  lemma MergePrecedence(parsed: Dict, secrets: Dict, k: string)
    requires UniqueNames(secrets)
    ensures k in Keys(secrets) ==> Get(MergeEnv(parsed, secrets), k) == Get(secrets, k)
    ensures k !in Keys(secrets) ==> Get(MergeEnv(parsed, secrets), k) == Get(parsed, k)
  {
    SpreadGet(parsed, secrets, k);
  }

  /** The environment handed to the deployment never names a variable
      twice. */
  lemma MergeUnique(stackVars: string, secrets: Dict)
    ensures UniqueNames(MergeEnv(ParsedVars(stackVars), secrets))
  {
    ParsedVarsOfLines(stackVars);
    SpreadUnique(ParsedVars(stackVars), secrets);
  }
}
