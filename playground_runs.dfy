/**
 * The driver of the two Sandpack playground generators: the command-line
 * arguments, the sections a run visits, the lesson limit, and the commits and
 * pushes that a section's lessons are grouped into.
 */
module PlaygroundRuns {
  import opened Wrappers
  import LessonMeta

  datatype Version = V1 | V2

  /** Lessons per commit. */
  const BatchSize: nat := 10

  datatype Section = Section(name: string, template: string)

  /** The sections in the order a run visits them, each with its Sandpack template. */
  const Sections: seq<Section> := [
    Section("javascript", "vanilla"), Section("typescript", "vanilla-ts"), Section("css", "vanilla"),
    Section("html", "vanilla"), Section("php", "vanilla"), Section("react", "react")]

  // ---- Arguments ----

  /**
   * Python's int() on an argument: an optional sign, then decimal digits. A
   * negative value needs a minus sign, and a text without a digit is rejected.
   */
  function ParseInt(s: string): (r: Option<int>)
    ensures r.Some? ==> s != [] && (r.value < 0 ==> s[0] == '-')
    ensures (forall k :: 0 <= k < |s| ==> !LessonMeta.IsDigit(s[k])) ==> r.None?
  {
    if |s| > 1 && (s[0] == '-' || s[0] == '+') && LessonMeta.AllDigits(s[1..]) then
      var n: int := LessonMeta.DecimalValue(s[1..]);
      Some(if s[0] == '-' then -n else n)
    else if s != [] && LessonMeta.AllDigits(s) then Some(LessonMeta.DecimalValue(s))
    else None
  }

  /** int() reads back every numeral, with or without a sign, and rejects what is not one. */
  lemma ParseIntShow(n: nat)
    ensures ParseInt(LessonMeta.Show(n)) == Some(n)
    ensures ParseInt("-" + LessonMeta.Show(n)) == Some(-(n as int))
    ensures ParseInt("+" + LessonMeta.Show(n)) == Some(n)
    ensures ParseInt("") == None && ParseInt("-") == None && ParseInt("ten") == None
  {
    var d := LessonMeta.Show(n);
    LessonMeta.DecimalValueOfShow(n);
    assert d[0] != '-' && d[0] != '+' by { assert LessonMeta.IsDigit(d[0]); }
    assert ("-" + d)[1..] == d && ("+" + d)[1..] == d;
    assert !LessonMeta.IsDigit('t');
  }

  /** What the arguments set: the section to start from and the lesson limit. */
  datatype Args = Args(start: Option<string>, limit: Option<int>)

  /** One step of the argument loop: "--limit" with the argument after it, or a lone argument. */
  datatype Token = LimitPair(value: string) | Lone(text: string)

  /** The arguments a step consumes. */
  function Spelled(t: Token): seq<string> {
    match t
    case LimitPair(v) => ["--limit", v]
    case Lone(a) => [a]
  }

  function Flatten(ts: seq<Token>): seq<string> {
    if ts == [] then [] else Spelled(ts[0]) + Flatten(ts[1..])
  }

  /**
   * How the argument loop groups args[i..] into steps: the steps spell out
   * exactly those arguments, and a "--limit" stands alone only as the last
   * argument.
   */
  function Tokens(args: seq<string>, i: nat): (ts: seq<Token>)
    requires i <= |args|
    decreases |args| - i
    ensures Flatten(ts) == args[i..]
    ensures forall k :: 0 <= k < |ts| && ts[k] == Lone("--limit") ==> k == |ts| - 1
  {
    if i == |args| then []
    else if args[i] == "--limit" && i + 1 < |args| then
      var rest := Tokens(args, i + 2);
      var ts := [LimitPair(args[i + 1])] + rest;
      assert ts[0] == LimitPair(args[i + 1]) && ts[1..] == rest;
      assert args[i..] == [args[i], args[i + 1]] + args[i + 2..];
      ts
    else
      var rest := Tokens(args, i + 1);
      var ts := [Lone(args[i])] + rest;
      assert ts[0] == Lone(args[i]) && ts[1..] == rest;
      assert args[i..] == [args[i]] + args[i + 1..];
      ts
  }

  /**
   * The grouping is the only one with those two properties: any steps that
   * spell out args[i..], with a lone "--limit" only at the end, are Tokens(args, i).
   */
  lemma {:induction false} TokensUnique(args: seq<string>, i: nat, ts: seq<Token>)
    requires i <= |args| && Flatten(ts) == args[i..]
    requires forall k :: 0 <= k < |ts| && ts[k] == Lone("--limit") ==> k == |ts| - 1
    ensures ts == Tokens(args, i)
    decreases |args| - i
  {
    if ts != [] {
      var t, rest := ts[0], ts[1..];
      assert Flatten(ts) == Spelled(t) + Flatten(rest);
      forall k | 0 <= k < |rest| && rest[k] == Lone("--limit")
        ensures k == |rest| - 1
      {
        assert ts[k + 1] == rest[k];
      }
      match t
      case LimitPair(v) =>
        assert args[i..][..2] == ["--limit", v];
        assert args[i] == "--limit" && args[i + 1] == v;
        assert args[i + 2..] == args[i..][2..];
        TokensUnique(args, i + 2, rest);
      case Lone(a) =>
        assert args[i] == args[i..][0] == a;
        assert args[i + 1..] == args[i..][1..];
        TokensUnique(args, i + 1, rest);
        if a == "--limit" {
          assert rest == [] && i + 1 == |args|;
        }
    }
  }

  /** The value of the last "--limit" step: None exactly when there is none. */
  function LastLimit(ts: seq<Token>): (r: Option<string>)
    ensures r.None? <==> forall k :: 0 <= k < |ts| ==> !ts[k].LimitPair?
    ensures r.Some? ==> exists k :: (0 <= k < |ts| && ts[k] == LimitPair(r.value)
      && forall j :: k < j < |ts| ==> !ts[j].LimitPair?)
  {
    if ts == [] then None
    else if ts[|ts| - 1].LimitPair? then Some(ts[|ts| - 1].value)
    else
      var r := LastLimit(ts[..|ts| - 1]);
      LastLimitOfInit(ts[..|ts| - 1], ts[|ts| - 1], r);
      assert ts == ts[..|ts| - 1] + [ts[|ts| - 1]];
      r
  }

  /** A last step of another kind leaves the last LimitPair step where it was. */
  lemma LastLimitOfInit(init: seq<Token>, t: Token, r: Option<string>)
    requires !t.LimitPair?
    requires r.None? <==> forall k :: 0 <= k < |init| ==> !init[k].LimitPair?
    requires r.Some? ==> exists k :: (0 <= k < |init| && init[k] == LimitPair(r.value)
      && forall j :: k < j < |init| ==> !init[j].LimitPair?)
    ensures var ts := init + [t];
      (r.None? <==> forall k :: 0 <= k < |ts| ==> !ts[k].LimitPair?)
      && (r.Some? ==> exists k :: (0 <= k < |ts| && ts[k] == LimitPair(r.value)
        && forall j :: k < j < |ts| ==> !ts[j].LimitPair?))
  {
    var ts := init + [t];
    assert forall k :: 0 <= k < |init| ==> ts[k] == init[k];
    if r.Some? {
      var k :| 0 <= k < |init| && init[k] == LimitPair(r.value) && forall j :: k < j < |init| ==> !init[j].LimitPair?;
      assert ts[k] == LimitPair(r.value);
    }
  }

  /** The last lone argument: None exactly when there is none. */
  function LastLone(ts: seq<Token>): (r: Option<string>)
    ensures r.None? <==> forall k :: 0 <= k < |ts| ==> !ts[k].Lone?
    ensures r.Some? ==> exists k :: (0 <= k < |ts| && ts[k] == Lone(r.value)
      && forall j :: k < j < |ts| ==> !ts[j].Lone?)
  {
    if ts == [] then None
    else if ts[|ts| - 1].Lone? then Some(ts[|ts| - 1].text)
    else
      var r := LastLone(ts[..|ts| - 1]);
      LastLoneOfInit(ts[..|ts| - 1], ts[|ts| - 1], r);
      assert ts == ts[..|ts| - 1] + [ts[|ts| - 1]];
      r
  }

  /** A last step of another kind leaves the last Lone step where it was. */
  lemma LastLoneOfInit(init: seq<Token>, t: Token, r: Option<string>)
    requires !t.Lone?
    requires r.None? <==> forall k :: 0 <= k < |init| ==> !init[k].Lone?
    requires r.Some? ==> exists k :: (0 <= k < |init| && init[k] == Lone(r.value)
      && forall j :: k < j < |init| ==> !init[j].Lone?)
    ensures var ts := init + [t];
      (r.None? <==> forall k :: 0 <= k < |ts| ==> !ts[k].Lone?)
      && (r.Some? ==> exists k :: (0 <= k < |ts| && ts[k] == Lone(r.value)
        && forall j :: k < j < |ts| ==> !ts[j].Lone?))
  {
    var ts := init + [t];
    assert forall k :: 0 <= k < |init| ==> ts[k] == init[k];
    if r.Some? {
      var k :| 0 <= k < |init| && init[k] == Lone(r.value) && forall j :: k < j < |init| ==> !init[j].Lone?;
      assert ts[k] == Lone(r.value);
    }
  }

  /** The first "--limit" step whose value int() rejects: None exactly when there is none. */
  function FirstBadLimit(ts: seq<Token>): (r: Option<string>)
    ensures r.None? <==> forall k :: 0 <= k < |ts| ==> !(ts[k].LimitPair? && ParseInt(ts[k].value).None?)
    ensures r.Some? ==> LimitPair(r.value) in ts && ParseInt(r.value).None?
  {
    if ts == [] then None
    else if ts[0].LimitPair? && ParseInt(ts[0].value).None? then Some(ts[0].value)
    else
      var r := FirstBadLimit(ts[1..]);
      assert forall k :: 0 < k < |ts| ==> ts[k] == ts[1..][k - 1];
      r
  }

  /** A step put in front changes the last and first steps of each kind only when the rest has none. */
  lemma {:induction false} TokensCons(t: Token, rest: seq<Token>)
    ensures LastLimit([t] + rest) == if LastLimit(rest).Some? then LastLimit(rest) else if t.LimitPair? then Some(t.value) else None
    ensures LastLone([t] + rest) == if LastLone(rest).Some? then LastLone(rest) else if t.Lone? then Some(t.text) else None
    ensures FirstBadLimit([t] + rest) == if t.LimitPair? && ParseInt(t.value).None? then Some(t.value) else FirstBadLimit(rest)
    decreases |rest|
  {
    var ts := [t] + rest;
    assert ts[0] == t && ts[1..] == rest;
    if rest == [] {
      assert ts[..0] == [];
    } else {
      var n := |rest| - 1;
      TokensCons(t, rest[..n]);
      assert ts[..|ts| - 1] == [t] + rest[..n];
      assert ts[|ts| - 1] == rest[n];
    }
  }

  /** int()'s ValueError message for a value it rejects, the value in single quotes. */
  function BadLimitMessage(value: string): string {
    "invalid literal for int() with base 10: '" + value + "'"
  }

  /**
   * The arguments from position i on: "--limit N" sets the limit, any other
   * argument, a "--limit" with nothing after it included, names the start
   * section; a later setting replaces an earlier one, and a limit that is not
   * a number stops the run. So the limit is that of the last "--limit" step,
   * the start the last lone argument, and the run fails exactly when some
   * "--limit" step has a value int() rejects, naming the first such value.
   */
  function ParseFrom(args: seq<string>, i: nat, acc: Args): (r: Result<Args, string>)
    requires i <= |args|
    decreases |args| - i
    ensures r.Failure? <==> FirstBadLimit(Tokens(args, i)).Some?
    ensures r.Failure? ==> r.error == BadLimitMessage(FirstBadLimit(Tokens(args, i)).value)
    ensures r.Success? ==> (r.value.limit
      == if LastLimit(Tokens(args, i)).Some? then ParseInt(LastLimit(Tokens(args, i)).value) else acc.limit)
    ensures r.Success? ==> (r.value.start
      == if LastLone(Tokens(args, i)).Some? then LastLone(Tokens(args, i)) else acc.start)
  {
    if i == |args| then Success(acc)
    else if args[i] == "--limit" && i + 1 < |args| then
      TokensCons(LimitPair(args[i + 1]), Tokens(args, i + 2));
      match ParseInt(args[i + 1])
      case None => Failure(BadLimitMessage(args[i + 1]))
      case Some(n) => ParseFrom(args, i + 2, acc.(limit := Some(n)))
    else
      TokensCons(Lone(args[i]), Tokens(args, i + 1));
      ParseFrom(args, i + 1, acc.(start := Some(args[i])))
  }

  /**
   * The argument loop of main: the start section is the last lone argument,
   * the limit that of the last "--limit" step, and the loop stops at the
   * first "--limit" step whose value is not a number.
   */
  method ParseArgs(args: seq<string>) returns (r: Result<Args, string>)
    ensures r == ParseFrom(args, 0, Args(None, None))
    ensures r.Failure? <==> FirstBadLimit(Tokens(args, 0)).Some?
    ensures r.Failure? ==> r.error == BadLimitMessage(FirstBadLimit(Tokens(args, 0)).value)
    ensures r.Success? ==> r.value == Args(LastLone(Tokens(args, 0)),
      if LastLimit(Tokens(args, 0)).Some? then ParseInt(LastLimit(Tokens(args, 0)).value) else None)
  {
    var acc := Args(None, None);
    var i := 0;
    while i < |args|
      invariant i <= |args|
      invariant ParseFrom(args, 0, Args(None, None)) == ParseFrom(args, i, acc)
      decreases |args| - i
    {
      if args[i] == "--limit" && i + 1 < |args| {
        var n := ParseInt(args[i + 1]);
        if n.None? {
          return Failure(BadLimitMessage(args[i + 1]));
        }
        acc := acc.(limit := n);
        i := i + 2;
      } else {
        acc := acc.(start := Some(args[i]));
        i := i + 1;
      }
    }
    return Success(acc);
  }

  /** Without "--limit", the last argument names the start section and no limit is set. */
  lemma {:induction false} ArgsWithoutLimit(args: seq<string>, i: nat, acc: Args)
    requires i <= |args| && forall k :: i <= k < |args| ==> args[k] != "--limit"
    ensures ParseFrom(args, i, acc) == Success(if i < |args| then acc.(start := Some(args[|args| - 1])) else acc)
    decreases |args| - i
  {
    if i < |args| {
      ArgsWithoutLimit(args, i + 1, acc.(start := Some(args[i])));
    }
  }

  lemma ArgsExamples()
    ensures ParseFrom(["css", "--limit", "3"], 0, Args(None, None)) == Success(Args(Some("css"), Some(3)))
    ensures ParseFrom(["--limit", "3", "css"], 0, Args(None, None)) == Success(Args(Some("css"), Some(3)))
    ensures ParseFrom(["--limit"], 0, Args(None, None)) == Success(Args(Some("--limit"), None))
    ensures ParseFrom(["--limit", "x"], 0, Args(None, None)).Failure?
  {
    ParseIntShow(3);
    assert LessonMeta.Show(3) == "3";
    assert !LessonMeta.IsDigit('x');
  }

  // ---- Sections ----

  /** The position of the section with this name. */
  function SectionIndex(name: string): (r: Option<nat>)
    ensures r.Some? ==> r.value < |Sections| && Sections[r.value].name == name
    ensures r.None? <==> forall k :: 0 <= k < |Sections| ==> Sections[k].name != name
  {
    if name == "javascript" then Some(0) else if name == "typescript" then Some(1)
    else if name == "css" then Some(2) else if name == "html" then Some(3)
    else if name == "php" then Some(4) else if name == "react" then Some(5)
    else None
  }

  /**
   * The sections a run visits: all without a start section, else a tail of
   * them starting with the named one; an unknown name visits none.
   */
  function Selected(start: Option<string>): (r: seq<Section>)
    ensures exists k :: 0 <= k <= |Sections| && r == Sections[k..]
    ensures start.None? ==> r == Sections
    ensures start.Some? && r != [] ==> r[0].name == start.value
    ensures start.Some? ==> (r == [] <==> SectionIndex(start.value).None?)
  {
    match start
    case None =>
      assert Sections == Sections[0..];
      Sections
    case Some(name) =>
      match SectionIndex(name)
      case None =>
        assert Sections[|Sections|..] == [];
        []
      case Some(k) =>
        assert Sections[k..][0] == Sections[k];
        Sections[k..]
  }

  /**
   * The section loop of main: `started` is set when the start section comes up,
   * and the sections before it are skipped.
   */
  method SelectSections(start: Option<string>) returns (chosen: seq<Section>)
    ensures chosen == Selected(start)
  {
    var started := start.None?;
    chosen := [];
    ghost var k := if start.Some? then SectionIndex(start.value) else None;
    for j := 0 to |Sections|
      invariant start.None? ==> started && chosen == Sections[..j]
      invariant start.Some? ==>
        (started <==> k.Some? && k.value < j) && chosen == (if started then Sections[k.value..j] else [])
    {
      if k.Some? && k.value <= j {
        assert Sections[k.value..j + 1] == Sections[k.value..j] + [Sections[j]];
      }
      if start.Some? && start.value != [] && Sections[j].name == start.value {
        started := true;
      }
      if started {
        chosen := chosen + [Sections[j]];
      }
    }
  }

  lemma SelectedExamples()
    ensures Selected(Some("react")) == [Section("react", "react")]
    ensures Selected(Some("jquery")) == [] && Selected(Some("")) == []
    ensures |Selected(None)| == 6
  {
  }

  // ---- The lesson limit ----

  /**
   * `if limit: pending = pending[:limit]`, with Python's slice on a negative
   * bound. The limit keeps a prefix of the pending lessons: at most n of them
   * for n > 0, all but the last -n for n < 0, all of them for no limit or 0.
   */
  function Limited<T>(xs: seq<T>, limit: Option<int>): (r: seq<T>)
    ensures |r| <= |xs| && r == xs[..|r|]
    ensures limit.None? || limit.value == 0 ==> r == xs
    ensures limit.Some? && limit.value > 0 ==> |r| == if limit.value < |xs| then limit.value else |xs|
    ensures limit.Some? && limit.value < 0 ==> |r| == if |xs| + limit.value > 0 then |xs| + limit.value else 0
  {
    if limit.None? || limit.value == 0 then xs
    else if limit.value > 0 then (if limit.value < |xs| then xs[..limit.value] else xs)
    else if |xs| + limit.value > 0 then xs[..|xs| + limit.value]
    else []
  }

  // ---- Batches of one section ----

  /** A git commit of some lessons of a section, numbered from 1, or a git push. */
  datatype Event = Commit(section: string, batch: nat, lessons: seq<nat>) | Push

  /** The positions of the lessons given a playground. */
  function Added(successes: seq<bool>): (xs: seq<nat>)
    ensures |xs| <= |successes|
    ensures forall k :: 0 <= k < |xs| ==> xs[k] < |successes| && successes[xs[k]]
    decreases |successes|
  {
    if successes == [] then []
    else
      var n := |successes| - 1;
      Added(successes[..n]) + (if successes[n] then [n] else [])
  }

  /** Added lists exactly the successful positions, each once and in increasing order. */
  lemma {:induction false} AddedExactly(successes: seq<bool>)
    ensures forall j :: 0 <= j < |successes| ==> (successes[j] <==> j in Added(successes))
    ensures forall a, b :: 0 <= a < b < |Added(successes)| ==> Added(successes)[a] < Added(successes)[b]
    decreases |successes|
  {
    if successes != [] {
      var n := |successes| - 1;
      AddedExactly(successes[..n]);
      assert forall j :: 0 <= j < n ==> successes[..n][j] == successes[j];
    }
  }

  /** The full batches of ys, each committed and pushed. */
  function FullBatches(name: string, ys: seq<nat>): seq<Event>
    requires |ys| % BatchSize == 0
    decreases |ys|
  {
    if ys == [] then []
    else
      var n := |ys| - BatchSize;
      FullBatches(name, ys[..n]) + [Commit(name, |ys| / BatchSize, ys[n..]), Push]
  }

  /**
   * What a section with these added lessons commits and pushes: every full
   * batch committed and pushed, then the rest committed, and pushed too by
   * the second generator.
   */
  function Plan(name: string, xs: seq<nat>, version: Version): seq<Event> {
    var f := |xs| / BatchSize * BatchSize;
    FullBatches(name, xs[..f])
      + if f < |xs| then [Commit(name, f / BatchSize + 1, xs[f..])] + (if version == V2 then [Push] else []) else []
  }

  /**
   * process_section on the pending lessons, after the limit, given whether
   * each lesson got a playground: returns the number added and the commits and
   * pushes it made, in order.
   */
  method ProcessSection(version: Version, name: string, successes: seq<bool>) returns (added: nat, events: seq<Event>)
    ensures added == |Added(successes)|
    ensures events == Plan(name, Added(successes), version)
  {
    var batch: seq<nat> := [];
    var batchNum: nat := 1;
    ghost var done: seq<nat> := [];
    added := 0;
    events := [];
    for idx := 0 to |successes|
      invariant batchNum >= 1 && |batch| < BatchSize && |done| == (batchNum - 1) * BatchSize
      invariant |done| % BatchSize == 0
      invariant Added(successes[..idx]) == done + batch && added == |done| + |batch|
      invariant events == FullBatches(name, done)
    {
      if successes[idx] {
        batch := batch + [idx];
        added := added + 1;
      }
      assert Added(successes[..idx + 1]) == done + batch by {
        AddedSnoc(successes, idx);
      }
      if |batch| >= BatchSize {
        assert |done + batch| == batchNum * BatchSize && |done + batch| % BatchSize == 0
          && FullBatches(name, done + batch) == FullBatches(name, done) + [Commit(name, batchNum, batch), Push] by {
          FullBatchesSnoc(name, done, batch, batchNum);
        }
        events := events + [Commit(name, batchNum, batch), Push];
        done := done + batch;
        batch := [];
        batchNum := batchNum + 1;
      }
    }
    assert successes[..|successes|] == successes;
    PlanSplit(name, done, batch, version, batchNum);
    if batch != [] {
      events := events + [Commit(name, batchNum, batch)];
      if version == V2 {
        events := events + [Push];
      }
    }
  }

  lemma AddedSnoc(successes: seq<bool>, i: nat)
    requires i < |successes|
    ensures Added(successes[..i + 1]) == Added(successes[..i]) + if successes[i] then [i] else []
  {
    assert successes[..i + 1][..i] == successes[..i];
  }

  lemma FullBatchesSnoc(name: string, ys: seq<nat>, c: seq<nat>, k: nat)
    requires |ys| == (k - 1) * BatchSize && |c| == BatchSize
    ensures |ys| % BatchSize == 0 && |ys + c| == k * BatchSize && |ys + c| % BatchSize == 0
    ensures FullBatches(name, ys + c) == FullBatches(name, ys) + [Commit(name, k, c), Push]
  {
    var zs := ys + c;
    assert zs[..|ys|] == ys && zs[|ys|..] == c;
    assert |zs| / BatchSize == |ys| / BatchSize + 1;
  }

  /** Full batches, then a short one: the plan commits the short one last. */
  lemma PlanSplit(name: string, done: seq<nat>, batch: seq<nat>, version: Version, k: nat)
    requires |done| == (k - 1) * BatchSize && |batch| < BatchSize
    ensures |done| % BatchSize == 0
    ensures Plan(name, done + batch, version) == FullBatches(name, done)
      + if batch != [] then [Commit(name, k, batch)] + (if version == V2 then [Push] else []) else []
  {
    var xs := done + batch;
    assert |xs| / BatchSize * BatchSize == |done|;
    assert xs[..|done|] == done && xs[|done|..] == batch;
  }

  /** The lessons named by the commits, in order. */
  function Committed(events: seq<Event>): seq<nat> {
    if events == [] then []
    else Committed(events[..|events| - 1]) + (if events[|events| - 1].Commit? then events[|events| - 1].lessons else [])
  }

  lemma {:induction false} CommittedConcat(a: seq<Event>, b: seq<Event>)
    ensures Committed(a + b) == Committed(a) + Committed(b)
    decreases |b|
  {
    if b == [] {
      assert a + b == a;
    } else {
      var n := |b| - 1;
      assert (a + b)[..|a + b| - 1] == a + b[..n];
      assert (a + b)[|a + b| - 1] == b[n];
      CommittedConcat(a, b[..n]);
    }
  }

  /** A commit names its lessons; a push names none. */
  lemma CommittedOne(c: Event)
    ensures Committed([c]) == (if c.Commit? then c.lessons else [])
    ensures Committed([c, Push]) == Committed([c])
  {
    assert [c][..0] == [] && [c, Push][..1] == [c];
  }

  lemma {:induction false} FullBatchesCommit(name: string, ys: seq<nat>)
    requires |ys| % BatchSize == 0
    ensures Committed(FullBatches(name, ys)) == ys
    decreases |ys|
  {
    if ys != [] {
      var n := |ys| - BatchSize;
      FullBatchesCommit(name, ys[..n]);
      var c := Commit(name, |ys| / BatchSize, ys[n..]);
      CommittedConcat(FullBatches(name, ys[..n]), [c, Push]);
      CommittedOne(c);
      assert ys[..n] + ys[n..] == ys;
    }
  }

  /** Every added lesson is committed exactly once, in order, whichever the generator. */
  lemma PlanCommitsEveryLesson(name: string, xs: seq<nat>, version: Version)
    ensures Committed(Plan(name, xs, version)) == xs
  {
    var f := |xs| / BatchSize * BatchSize;
    var done, rest := xs[..f], xs[f..];
    assert xs == done + rest;
    PlanSplit(name, done, rest, version, |xs| / BatchSize + 1);
    FullBatchesCommit(name, done);
    if rest != [] {
      var c := Commit(name, f / BatchSize + 1, rest);
      var tail := [c] + (if version == V2 then [Push] else []);
      CommittedConcat(FullBatches(name, done), tail);
      CommittedOne(c);
      assert version == V2 ==> tail == [c, Push];
    } else {
      assert FullBatches(name, done) + [] == FullBatches(name, done);
    }
  }

  /** The full batches: BatchSize lessons each, numbered 1, 2, ..., each followed by a push. */
  lemma {:induction false} FullBatchesShape(name: string, ys: seq<nat>)
    requires |ys| % BatchSize == 0
    ensures var ev := FullBatches(name, ys);
      |ev| == 2 * (|ys| / BatchSize)
      && forall k :: 0 <= k < |ev| ==>
        (k % 2 == 0 <==> ev[k].Commit?)
        && (ev[k].Commit? ==> ev[k] == Commit(name, k / 2 + 1, ys[k / 2 * BatchSize..k / 2 * BatchSize + BatchSize]))
    decreases |ys|
  {
    if ys != [] {
      var n := |ys| - BatchSize;
      FullBatchesShape(name, ys[..n]);
      var ev := FullBatches(name, ys);
      var ev0 := FullBatches(name, ys[..n]);
      assert |ev0| == 2 * (n / BatchSize) && n / BatchSize + 1 == |ys| / BatchSize;
      forall k | 0 <= k < |ev0|
        ensures ev0[k].Commit? ==> ev0[k] == Commit(name, k / 2 + 1, ys[k / 2 * BatchSize..k / 2 * BatchSize + BatchSize])
      {
        if ev0[k].Commit? {
          assert k / 2 * BatchSize + BatchSize <= n;
          assert ys[..n][k / 2 * BatchSize..k / 2 * BatchSize + BatchSize] == ys[k / 2 * BatchSize..k / 2 * BatchSize + BatchSize];
        }
      }
      assert forall k :: 0 <= k < |ev0| ==> ev[k] == ev0[k];
    }
  }

  /**
   * Every commit holds 1 to BatchSize lessons of this section, the batches
   * are numbered 1, 2, ... in order, and a commit is followed by a push
   * exactly when it is full or the second generator made it.
   */
  lemma PlanShape(name: string, xs: seq<nat>, version: Version)
    ensures var ev := Plan(name, xs, version);
      forall k :: 0 <= k < |ev| && ev[k].Commit? ==>
        ev[k].section == name && 0 < |ev[k].lessons| <= BatchSize && ev[k].batch == k / 2 + 1
        && (k + 1 < |ev| && ev[k + 1].Push? <==> |ev[k].lessons| == BatchSize || version == V2)
  {
    var f := |xs| / BatchSize * BatchSize;
    var full := FullBatches(name, xs[..f]);
    FullBatchesShape(name, xs[..f]);
    var ev := Plan(name, xs, version);
    assert |full| == 2 * (f / BatchSize);
    forall k | 0 <= k < |ev| && ev[k].Commit?
      ensures ev[k].section == name && 0 < |ev[k].lessons| <= BatchSize && ev[k].batch == k / 2 + 1
      ensures k + 1 < |ev| && ev[k + 1].Push? <==> |ev[k].lessons| == BatchSize || version == V2
    {
      if k < |full| {
        assert ev[k] == full[k] && k % 2 == 0;
        assert ev[k + 1] == full[k + 1];
      } else {
        assert k == |full| && ev[k] == Commit(name, f / BatchSize + 1, xs[f..]);
      }
    }
  }

  // ---- A whole run ----

  /** The pending lessons of a section after the limit; a section without a folder has none. */
  function Pending(s: Section, lessons: map<string, seq<bool>>, limit: Option<int>): seq<bool> {
    if s.name in lessons then Limited(lessons[s.name], limit) else []
  }

  /** The playgrounds the sections add, summed. */
  function RunTotal(secs: seq<Section>, lessons: map<string, seq<bool>>, limit: Option<int>): nat {
    if secs == [] then 0
    else RunTotal(secs[..|secs| - 1], lessons, limit) + |Added(Pending(secs[|secs| - 1], lessons, limit))|
  }

  /** The commits and pushes of the sections, one section after the other. */
  function RunEvents(version: Version, secs: seq<Section>, lessons: map<string, seq<bool>>, limit: Option<int>): seq<Event> {
    if secs == [] then []
    else
      var s := secs[|secs| - 1];
      RunEvents(version, secs[..|secs| - 1], lessons, limit) + Plan(s.name, Added(Pending(s, lessons, limit)), version)
  }

  /** The number of playgrounds added and the git commands made. */
  datatype Report = Report(total: nat, events: seq<Event>)

  /**
   * main on these arguments: the first generator pushes once more at the end.
   * The run fails exactly on a limit that is not a number; otherwise the total
   * it reports is the number of lessons its commits hold.
   */
  function RunSpec(version: Version, args: seq<string>, lessons: map<string, seq<bool>>): (r: Result<Report, string>)
    ensures r.Failure? <==> FirstBadLimit(Tokens(args, 0)).Some?
    ensures r.Failure? ==> r.error == BadLimitMessage(FirstBadLimit(Tokens(args, 0)).value)
    ensures r.Success? ==> |Committed(r.value.events)| == r.value.total
    ensures r.Success? && version == V1 ==> r.value.events != [] && r.value.events[|r.value.events| - 1] == Push
  {
    match ParseFrom(args, 0, Args(None, None))
    case Failure(e) => Failure(e)
    case Success(a) =>
      var secs := Selected(a.start);
      var events := RunEvents(version, secs, lessons, a.limit);
      var tail := if version == V1 then [Push] else [];
      RunTotalIsCommitted(version, secs, lessons, a.limit);
      CommittedConcat(events, tail);
      assert [Push][..0] == [];
      Success(Report(RunTotal(secs, lessons, a.limit), events + tail))
  }

  lemma RunSnoc(version: Version, secs: seq<Section>, j: nat, lessons: map<string, seq<bool>>, limit: Option<int>)
    requires j < |secs|
    ensures var xs := Added(Pending(secs[j], lessons, limit));
      RunTotal(secs[..j + 1], lessons, limit) == RunTotal(secs[..j], lessons, limit) + |xs|
      && RunEvents(version, secs[..j + 1], lessons, limit) == RunEvents(version, secs[..j], lessons, limit) + Plan(secs[j].name, xs, version)
  {
    assert secs[..j + 1][..j] == secs[..j];
  }

  /** The section loop of main over the selected sections. */
  method RunSections(version: Version, secs: seq<Section>, lessons: map<string, seq<bool>>, limit: Option<int>)
    returns (total: nat, events: seq<Event>)
    ensures total == RunTotal(secs, lessons, limit)
    ensures events == RunEvents(version, secs, lessons, limit)
  {
    total := 0;
    events := [];
    for j := 0 to |secs|
      invariant total == RunTotal(secs[..j], lessons, limit)
      invariant events == RunEvents(version, secs[..j], lessons, limit)
    {
      var added, evs := ProcessSection(version, secs[j].name, Pending(secs[j], lessons, limit));
      RunSnoc(version, secs, j, lessons, limit);
      total := total + added;
      events := events + evs;
    }
    assert secs[..|secs|] == secs;
  }

  /**
   * main, given for each section folder whether each of its pending lessons
   * gets a playground.
   */
  method Run(version: Version, args: seq<string>, lessons: map<string, seq<bool>>) returns (r: Result<Report, string>)
    ensures r == RunSpec(version, args, lessons)
  {
    var parsed := ParseArgs(args);
    if parsed.Failure? {
      return Failure(parsed.error);
    }
    var a := parsed.value;
    var secs := SelectSections(a.start);
    var total, events := RunSections(version, secs, lessons, a.limit);
    if version == V1 {
      events := events + [Push];
    } else {
      assert events + [] == events;
    }
    r := Success(Report(total, events));
  }

  lemma {:induction false} RunTotalIsCommitted(version: Version, secs: seq<Section>, lessons: map<string, seq<bool>>, limit: Option<int>)
    ensures |Committed(RunEvents(version, secs, lessons, limit))| == RunTotal(secs, lessons, limit)
    decreases |secs|
  {
    if secs != [] {
      var s := secs[|secs| - 1];
      var xs := Added(Pending(s, lessons, limit));
      RunTotalIsCommitted(version, secs[..|secs| - 1], lessons, limit);
      CommittedConcat(RunEvents(version, secs[..|secs| - 1], lessons, limit), Plan(s.name, xs, version));
      PlanCommitsEveryLesson(s.name, xs, version);
    }
  }

  /** A bad limit stops the run before any section is visited. */
  lemma BadLimitStopsRun(version: Version, lessons: map<string, seq<bool>>)
    ensures RunSpec(version, ["--limit", "x"], lessons).Failure?
  {
    ArgsExamples();
  }
}
