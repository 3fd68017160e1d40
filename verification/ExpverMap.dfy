/** The map from experiments to roots, in a file that processes share: the first writer of
    an experiment wins, and all others use its root. */
module ExpverMap {
  import opened Wrappers

  // ----- Lines -----

  /** The words of a line. */
  function Words(line: string): (ws: seq<string>)
    ensures forall i :: 0 <= i < |ws| ==> ws[i] != ""
    decreases |line|
  {
    if line == "" then []
    else if line[0] == ' ' then Words(line[1..])
    else
      var n := WordEnd(line);
      [line[..n]] + Words(line[n..])
  }

  function WordEnd(line: string): (n: nat)
    ensures n <= |line|
    ensures line != "" && line[0] != ' ' ==> n > 0
  {
    if line == "" || line[0] == ' ' then 0 else 1 + WordEnd(line[1..])
  }

  predicate IsWord(s: string)
  {
    s != "" && ' ' !in s
  }

  lemma {:induction false} WordEndsAtBlank(word: string, rest: string)
    requires ' ' !in word && (rest == "" || rest[0] == ' ')
    ensures WordEnd(word + rest) == |word|
  {
    if word == "" {
      assert word + rest == rest;
    } else {
      assert (word + rest)[1..] == word[1..] + rest;
      WordEndsAtBlank(word[1..], rest);
    }
  }

  /** The line that `append` writes is read back as its two words. */
  lemma {:induction false} LineRoundTrip(expver: string, path: string)
    requires IsWord(expver) && IsWord(path)
    ensures Words(expver + " " + path) == [expver, path]
  {
    var rest := " " + path;
    assert expver + " " + path == expver + rest;
    WordEndsAtBlank(expver, rest);
    assert (expver + rest)[..|expver|] == expver && (expver + rest)[|expver|..] == rest && rest[1..] == path;
    WordEndsAtBlank(path, "");
    assert path + "" == path && path[..|path|] == path && path[|path|..] == "";
    assert path[0] in path && expver[0] in expver;
    assert Words(path) == [path] + Words("");
    assert Words(rest) == Words(path) == [path];
    assert [expver] + [path] == [expver, path];
  }

  // ----- Reading the file -----

  /** A blank line or a comment, an entry, or a line for which reading throws. */
  datatype Line = Ignored | Entry(expver: string, path: string) | Bad

  function LineOf(line: string): Line
  {
    var ws := Words(line);
    if |ws| == 0 || ws[0][0] == '#' then Ignored
    else if |ws| != 2 then Bad
    else Entry(ws[0], ws[1])
  }

  type Table = map<string, string>

  /** `load`: the table that is left, also where it throws. */
  function Load(table: Table, file: seq<string>): (Table, bool)
    decreases |file|
  {
    if file == [] then (table, true)
    else match LineOf(file[0])
      case Ignored => Load(table, file[1..])
      case Bad => (table, false)
      case Entry(expver, path) => Load(table[expver := path], file[1..])
  }

  /** The scan of `append`. */
  datatype Scan = Found(path: string) | Absent | Throws

  function ScanFor(expver: string, file: seq<string>): Scan
  {
    if file == [] then Absent
    else match LineOf(file[0])
      case Ignored => ScanFor(expver, file[1..])
      case Bad => Throws
      case Entry(e, path) => if e == expver then Found(path) else ScanFor(expver, file[1..])
  }

  // ----- Processes -----

  predicate AlNum(c: char)
  {
    '0' <= c <= '9' || 'a' <= c <= 'z' || 'A' <= c <= 'Z'
  }

  /** `expver_is_valid`. */
  predicate ValidExpver(s: string)
  {
    |s| == 4 && forall c :: c in s ==> AlNum(c)
  }

  /** Where a call of `selectFileSystem` stands in a process. */
  datatype Call = Idle | Asking(expver: string) | Chosen(expver: string, path: string)

  datatype Process = Process(table: Table, call: Call)

  /** `returned` are the normal returns so far: the experiment and the root. */
  datatype State = State(file: seq<string>, processes: seq<Process>, returned: set<(string, string)>)

  datatype Step =
    | Calls(k: nat, expver: string)      // load an empty table, look the experiment up
    | Appends(k: nat, maybe: string)     // under the lock of the file
    | Finishes(k: nat)

  function Do(s: State, step: Step): Option<State>
  {
    if step.k >= |s.processes| then None
    else
      var k, p := step.k, s.processes[step.k];
      match step
      case Calls(_, expver) =>
        if p.call != Idle then None
        else
          var (table, ok) := if p.table == map[] then Load(map[], s.file) else (p.table, true);
          if !ok || !ValidExpver(expver) then Some(s.(processes := s.processes[k := Process(table, Idle)]))
          else if expver in table then
            Some(s.(processes := s.processes[k := Process(table, Idle)], returned := s.returned + {(expver, table[expver])}))
          else Some(s.(processes := s.processes[k := Process(table, Asking(expver))]))
      case Appends(_, maybe) =>
        if !p.call.Asking? || !IsWord(maybe) then None
        else
          (match ScanFor(p.call.expver, s.file)
           case Throws => Some(s.(processes := s.processes[k := p.(call := Idle)]))
           case Found(path) => Some(s.(processes := s.processes[k := p.(call := Chosen(p.call.expver, path))]))
           case Absent =>
            Some(s.(file := s.file + [p.call.expver + " " + maybe],
                    processes := s.processes[k := p.(call := Chosen(p.call.expver, maybe))])))
      case Finishes(_) =>
        if !p.call.Chosen? then None
        else
          var (expver, path) := (p.call.expver, p.call.path);
          Some(s.(processes := s.processes[k := Process(p.table[expver := path], Idle)], returned := s.returned + {(expver, path)}))
  }

  // ----- Agreement -----

  /** No two lines of the file are for the same experiment. */
  predicate OncePer(file: seq<string>)
  {
    forall i, j :: 0 <= i < j < |file| && LineOf(file[i]).Entry? && LineOf(file[j]).Entry? ==>
      LineOf(file[i]).expver != LineOf(file[j]).expver
  }

  /** The file has this root for the experiment. */
  predicate Says(file: seq<string>, expver: string, path: string)
  {
    exists i :: 0 <= i < |file| && LineOf(file[i]) == Entry(expver, path)
  }

  predicate TableAgrees(file: seq<string>, table: Table)
  {
    forall e :: e in table ==> Says(file, e, table[e])
  }

  predicate ProcessAgrees(file: seq<string>, p: Process)
  {
    TableAgrees(file, p.table) && (p.call.Asking? ==> ValidExpver(p.call.expver))
    && (p.call.Chosen? ==> Says(file, p.call.expver, p.call.path))
  }

  predicate Inv(s: State)
  {
    && OncePer(s.file)
    && (forall k :: 0 <= k < |s.processes| ==> ProcessAgrees(s.file, s.processes[k]))
    && forall r :: r in s.returned ==> Says(s.file, r.0, r.1)
  }

  lemma {:induction false} LoadAgrees(table: Table, file: seq<string>, i: nat)
    requires i <= |file| && TableAgrees(file, table)
    ensures TableAgrees(file, Load(table, file[i..]).0)
    decreases |file| - i
  {
    if i < |file| {
      assert file[i..][0] == file[i] && file[i..][1..] == file[i + 1..];
      match LineOf(file[i])
      case Ignored => LoadAgrees(table, file, i + 1);
      case Bad =>
      case Entry(e, path) =>
        assert Says(file, e, path);
        LoadAgrees(table[e := path], file, i + 1);
    }
  }

  /** The scan finds a line of the experiment, or there is none. */
  lemma {:induction false} ScanSays(expver: string, file: seq<string>)
    ensures match ScanFor(expver, file)
            case Found(path) => Says(file, expver, path)
            case Absent => forall i :: 0 <= i < |file| && LineOf(file[i]).Entry? ==> LineOf(file[i]).expver != expver
            case Throws => exists i :: 0 <= i < |file| && LineOf(file[i]) == Bad
  {
    if file != [] {
      ScanSays(expver, file[1..]);
      match ScanFor(expver, file[1..])
      case Found(path) =>
        var i :| 0 <= i < |file[1..]| && LineOf(file[1..][i]) == Entry(expver, path);
        assert LineOf(file[i + 1]) == Entry(expver, path);
      case Absent =>
        assert forall i :: 0 < i < |file| ==> file[i] == file[1..][i - 1];
      case Throws =>
        var i :| 0 <= i < |file[1..]| && LineOf(file[1..][i]) == Bad;
        assert LineOf(file[i + 1]) == Bad;
    }
  }

  lemma {:induction false} SaysGrows(file: seq<string>, line: string, expver: string, path: string)
    requires Says(file, expver, path)
    ensures Says(file + [line], expver, path)
  {
    var i :| 0 <= i < |file| && LineOf(file[i]) == Entry(expver, path);
    assert (file + [line])[i] == file[i];
  }

  lemma {:induction false} AgreesGrows(file: seq<string>, line: string, p: Process)
    requires ProcessAgrees(file, p)
    ensures ProcessAgrees(file + [line], p)
  {
    forall e | e in p.table
      ensures Says(file + [line], e, p.table[e])
    {
      SaysGrows(file, line, e, p.table[e]);
    }
    if p.call.Chosen? {
      SaysGrows(file, line, p.call.expver, p.call.path);
    }
  }

  /** The line that is appended is the only one for its experiment. */
  lemma {:induction false} AppendedSays(file: seq<string>, expver: string, path: string)
    requires OncePer(file) && ValidExpver(expver) && IsWord(path) && ScanFor(expver, file).Absent?
    ensures var file' := file + [expver + " " + path]; OncePer(file') && Says(file', expver, path)
  {
    assert ' ' !in expver && expver[0] in expver;
    LineRoundTrip(expver, path);
    ScanSays(expver, file);
    var file' := file + [expver + " " + path];
    assert LineOf(file'[|file|]) == Entry(expver, path);
    assert forall i :: 0 <= i < |file| ==> file'[i] == file[i];
  }

  lemma {:induction false} DoKeeps(s: State, step: Step)
    requires Inv(s) && Do(s, step).Some?
    ensures Inv(Do(s, step).value) && s.file <= Do(s, step).value.file
  {
    hide LineOf, Words, OncePer, Says;
    var s', k, p := Do(s, step).value, step.k, s.processes[step.k];
    assert ProcessAgrees(s.file, p);
    match step
    case Calls(_, expver) =>
      assert s.file[0..] == s.file;
      LoadAgrees(map[], s.file, 0);
    case Finishes(_) =>
    case Appends(_, maybe) =>
      ScanSays(p.call.expver, s.file);
      if ScanFor(p.call.expver, s.file).Absent? {
        AppendedSays(s.file, p.call.expver, maybe);
        var line := p.call.expver + " " + maybe;
        forall j | 0 <= j < |s'.processes|
          ensures ProcessAgrees(s'.file, s'.processes[j])
        {
          AgreesGrows(s.file, line, s.processes[j]);
        }
        forall r | r in s.returned
          ensures Says(s'.file, r.0, r.1)
        {
          SaysGrows(s.file, line, r.0, r.1);
        }
      }
  }

  function Run(file: seq<string>, processes: nat, steps: seq<Step>): Option<State>
  {
    if steps == [] then Some(State(file, seq(processes, _ => Process(map[], Idle)), {}))
    else match Run(file, processes, steps[..|steps| - 1])
      case None => None
      case Some(s) => Do(s, steps[|steps| - 1])
  }

  lemma {:induction false} RunKeeps(file: seq<string>, processes: nat, steps: seq<Step>)
    requires OncePer(file) && Run(file, processes, steps).Some?
    ensures Inv(Run(file, processes, steps).value) && file <= Run(file, processes, steps).value.file
  {
    if steps != [] {
      hide Do, Inv;
      RunKeeps(file, processes, steps[..|steps| - 1]);
      DoKeeps(Run(file, processes, steps[..|steps| - 1]).value, steps[|steps| - 1]);
    }
  }

  /** In every interleaving of processes, from a file without duplicates: the file keeps at
      most one line per experiment, and all normal returns for an experiment agree. */
  lemma {:induction false} ReturnsAgree(file: seq<string>, processes: nat, steps: seq<Step>, expver: string, a: string, b: string)
    requires OncePer(file) && Run(file, processes, steps).Some?
    ensures var s := Run(file, processes, steps).value;
            OncePer(s.file) && ((expver, a) in s.returned && (expver, b) in s.returned ==> a == b)
  {
    hide LineOf, Do, Run;
    RunKeeps(file, processes, steps);
    var s := Run(file, processes, steps).value;
    if (expver, a) in s.returned && (expver, b) in s.returned {
      var i :| 0 <= i < |s.file| && LineOf(s.file[i]) == Entry(expver, a);
      var j :| 0 <= j < |s.file| && LineOf(s.file[j]) == Entry(expver, b);
    }
  }

  // ----- Whose root it is -----

  predicate Unsaid(file: seq<string>, expver: string)
  {
    forall i :: 0 <= i < |file| ==> LineOf(file[i]) != Bad && (LineOf(file[i]).Entry? ==> LineOf(file[i]).expver != expver)
  }

  lemma {:induction false} UnsaidIsAbsent(expver: string, file: seq<string>)
    requires Unsaid(file, expver)
    ensures ScanFor(expver, file) == Absent
  {
    if file != [] {
      assert forall i :: 0 <= i < |file[1..]| ==> file[1..][i] == file[i + 1];
      UnsaidIsAbsent(expver, file[1..]);
    }
  }

  /** The first line for an experiment, with only good lines before it. */
  predicate SaidAt(file: seq<string>, expver: string, i: nat, path: string)
  {
    i < |file| && LineOf(file[i]) == Entry(expver, path) && Unsaid(file[..i], expver)
  }

  lemma {:induction false} UnsaidRest(file: seq<string>, expver: string)
    requires file != [] && Unsaid(file, expver)
    ensures Unsaid(file[1..], expver)
  {
    assert forall i :: 0 <= i < |file[1..]| ==> file[1..][i] == file[i + 1];
  }

  lemma {:induction false} SaidIsFound(expver: string, file: seq<string>, i: nat, path: string)
    requires SaidAt(file, expver, i, path)
    ensures ScanFor(expver, file) == Found(path)
  {
    if i > 0 {
      var before := file[..i];
      assert before[0] == file[0] && file[1..][i - 1] == file[i];
      assert before[1..] == file[1..][..i - 1];
      assert Unsaid(before[1..], expver) by { UnsaidRest(before, expver); }
      SaidIsFound(expver, file[1..], i - 1, path);
    }
  }

  /** `append` by a process that asks for an experiment: where the file has no line for it,
      one line is added, of the experiment and the root that this process proposes, which it
      then uses; where it has one, the file stays and the process uses the root of that line. */
  lemma {:induction false} AppendsOwn(s: State, k: nat, maybe: string)
    requires k < |s.processes| && s.processes[k].call.Asking? && ValidExpver(s.processes[k].call.expver) && IsWord(maybe)
    ensures var expver := s.processes[k].call.expver;
            var s' := Do(s, Appends(k, maybe));
            && s'.Some? && |s'.value.processes| == |s.processes|
            && (Unsaid(s.file, expver) ==>
                  && |s'.value.file| == |s.file| + 1 && s'.value.file[..|s.file|] == s.file && Words(s'.value.file[|s.file|]) == [expver, maybe]
                  && s'.value.processes[k].call == Chosen(expver, maybe))
            && (forall i: nat, path :: SaidAt(s.file, expver, i, path) ==>
                  s'.value.file == s.file && s'.value.processes[k].call == Chosen(expver, path))
  {
    hide LineOf, Words, Unsaid, SaidAt, ScanFor;
    var expver := s.processes[k].call.expver;
    assert IsWord(expver) by { assert ' ' !in expver && expver[0] in expver; }
    LineRoundTrip(expver, maybe);
    if Unsaid(s.file, expver) {
      UnsaidIsAbsent(expver, s.file);
    }
    forall i: nat, path | SaidAt(s.file, expver, i, path)
      ensures ScanFor(expver, s.file) == Found(path)
    {
      SaidIsFound(expver, s.file, i, path);
    }
  }

  lemma {:induction false} RunGrows(file: seq<string>, processes: nat, steps: seq<Step>, n: nat)
    requires n <= |steps| && OncePer(file) && Run(file, processes, steps).Some?
    ensures Run(file, processes, steps[..n]).Some?
    ensures Run(file, processes, steps[..n]).value.file <= Run(file, processes, steps).value.file
  {
    if n == |steps| {
      assert steps[..n] == steps;
    } else {
      hide Do, Inv;
      var init := steps[..|steps| - 1];
      RunGrows(file, processes, init, n);
      assert init[..n] == steps[..n];
      RunKeeps(file, processes, init);
      DoKeeps(Run(file, processes, init).value, steps[|steps| - 1]);
    }
  }

  /** The first writer wins: once a process has appended its root for an experiment, every
      normal return for that experiment, of whatever process, is that root. */
  lemma {:induction false} FirstWriterWins(file: seq<string>, processes: nat, steps: seq<Step>, n: nat, expver: string, a: string)
    requires OncePer(file) && Run(file, processes, steps).Some? && n < |steps| && steps[n].Appends?
    requires Run(file, processes, steps[..n]).Some?
    requires var before := Run(file, processes, steps[..n]).value;
             steps[n].k < |before.processes| && before.processes[steps[n].k].call == Asking(expver) && Unsaid(before.file, expver)
    requires IsWord(steps[n].maybe) && (expver, a) in Run(file, processes, steps).value.returned
    ensures a == steps[n].maybe
  {
    hide LineOf, Words, Do, Run, Unsaid, OncePer, Says;
    var before, maybe := Run(file, processes, steps[..n]).value, steps[n].maybe;
    RunKeeps(file, processes, steps[..n]);
    assert ProcessAgrees(before.file, before.processes[steps[n].k]);
    AppendsOwn(before, steps[n].k, maybe);
    OneMoreStep(file, processes, steps, n);
    RunGrows(file, processes, steps, n + 1);
    var after := Run(file, processes, steps[..n + 1]).value;
    RunKeeps(file, processes, steps);
    var s := Run(file, processes, steps).value;
    assert after.file == before.file + [after.file[|before.file|]] && s.file[|before.file|] == after.file[|before.file|];
    AppendedLine(expver, maybe, s.file[|before.file|]);
    SaidOnce(s.file, expver, maybe, a, |before.file|);
  }

  lemma {:induction false} OneMoreStep(file: seq<string>, processes: nat, steps: seq<Step>, n: nat)
    requires n < |steps| && Run(file, processes, steps[..n]).Some?
    ensures Run(file, processes, steps[..n + 1]) == Do(Run(file, processes, steps[..n]).value, steps[n])
  {
    hide Do;
    assert steps[..n + 1][..n] == steps[..n];
  }

  lemma {:induction false} AppendedLine(expver: string, maybe: string, line: string)
    requires ValidExpver(expver) && Words(line) == [expver, maybe]
    ensures LineOf(line) == Entry(expver, maybe)
  {
    assert expver[0] in expver;
  }

  lemma {:induction false} SaidOnce(file: seq<string>, expver: string, maybe: string, a: string, i: nat)
    requires OncePer(file) && Says(file, expver, a) && i < |file| && LineOf(file[i]) == Entry(expver, maybe)
    ensures a == maybe
  {
    hide LineOf;
    var j :| 0 <= j < |file| && LineOf(file[j]) == Entry(expver, a);
  }
}
