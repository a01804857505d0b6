/** The argument loop of the option parser: it recognises options and moves them in front of the other arguments, in
    place. */
module Arguments {

  datatype Option<T> = None | Some(value: T)

  /** Short option characters and the long option of one usage entry. */
  datatype Descriptor = Descriptor(shortopt: string, longopt: string)

  datatype ArgStatus = ArgNone | ArgOk | ArgIgnore | ArgIllegal

  /** An option as it is handed to the action: its usage entry, its text in the argument, and its own argument. */
  datatype Opt = Opt(descriptor: nat, name: string, arg: Option<string>)

  /**
   * The parser's settings. check is the check_arg function of a usage entry; accept is the action,
   * which may refuse an option after those it has taken.
   */
  datatype Env = Env(usage: seq<Descriptor>, gnu: bool, singleMinusLongopt: bool, minAbbrLen: int,
                     check: (nat, string, Option<string>) -> ArgStatus, accept: (seq<Opt>, Opt) -> bool)

  // ----------------------------------------------------------------- comparisons

  /** st1 is st2, or all of it before a '='. */
  predicate Streq(st1: string, st2: string) {
    st1 <= st2 && (|st2| == |st1| || st2[|st1|] == '=')
  }

  function Common(st1: string, st2: string): (k: nat)
    ensures k <= |st1| && k <= |st2| && st1[..k] == st2[..k]
    ensures k < |st1| && k < |st2| ==> st1[k] != st2[k]
  {
    if st1 == "" || st2 == "" || st1[0] != st2[0] then 0
    else
      var k := Common(st1[1..], st2[1..]);
      assert st1[..k + 1] == [st1[0]] + st1[1..][..k] && st2[..k + 1] == [st2[0]] + st2[1..][..k];
      k + 1
  }

  predicate StreqAbbr(st1: string, st2: string, min: int) {
    var k := Common(st1, st2);
    (k == |st1| || (min > 0 && k >= min)) && (k == |st2| || st2[k] == '=')
  }

  /** The first entry from i on whose long option fits; the length of the table when there is none. */
  function FirstLong(usage: seq<Descriptor>, name: string, i: nat): (idx: nat)
    requires i <= |usage|
    ensures i <= idx <= |usage| && (idx < |usage| ==> Streq(usage[idx].longopt, name))
    decreases |usage| - i
  {
    if i == |usage| || Streq(usage[i].longopt, name) then i else FirstLong(usage, name, i + 1)
  }

  function FirstAbbr(usage: seq<Descriptor>, name: string, min: int, i: nat): (idx: nat)
    requires i <= |usage|
    ensures i <= idx <= |usage|
    decreases |usage| - i
  {
    if i == |usage| || StreqAbbr(usage[i].longopt, name, min) then i else FirstAbbr(usage, name, min, i + 1)
  }

  /** An exact long option, or the only one that the name abbreviates. */
  function FindLong(e: Env, name: string): (idx: nat)
    ensures idx <= |e.usage|
  {
    var exact := FirstLong(e.usage, name, 0);
    if exact < |e.usage| || e.minAbbrLen <= 0 then exact
    else
      var i1 := FirstAbbr(e.usage, name, e.minAbbrLen, 0);
      if i1 == |e.usage| then exact
      else if FirstAbbr(e.usage, name, e.minAbbrLen, i1 + 1) == |e.usage| then i1 else exact
  }

  function FindShort(usage: seq<Descriptor>, c: char, i: nat): (idx: nat)
    requires i <= |usage|
    ensures i <= idx <= |usage|
    decreases |usage| - i
  {
    if i == |usage| || c in usage[i].shortopt then i else FindShort(usage, c, i + 1)
  }

  /** The entry for unknown options, the first with neither a short nor a long option. */
  function FindDummy(usage: seq<Descriptor>, i: nat): (idx: nat)
    requires i <= |usage|
    ensures i <= idx <= |usage|
    decreases |usage| - i
  {
    if i == |usage| || (usage[i].shortopt == "" && usage[i].longopt == "") then i else FindDummy(usage, i + 1)
  }

  // --------------------------------------------------------------- one argument

  /** What an option could take as its argument: part of its own text, or the argument after it. */
  datatype Arg = NoArg | Attached(text: string) | Detached(text: string)

  function TextOf(a: Arg): Option<string> {
    match a
    case NoArg => None
    case Attached(t) => Some(t)
    case Detached(t) => Some(t)
  }

  datatype Act = Stop | Go(log: seq<Opt>, detached: bool, more: bool)

  /** Checking one option and handing it on. more says that a group of short options may go on behind it. */
  function ActOn(e: Env, idx: nat, name: string, arg: Arg, log: seq<Opt>): Act
    requires idx <= |e.usage|
  {
    var d := if idx < |e.usage| then idx else FindDummy(e.usage, 0);
    if d == |e.usage| then Go(log, false, true)
    else match e.check(d, name, TextOf(arg))
      case ArgIllegal => Stop
      case ArgOk => Perform(e, Opt(d, name, TextOf(arg)), log, arg.Detached?, false)
      case _ => Perform(e, Opt(d, name, None), log, false, true)
  }

  function Perform(e: Env, o: Opt, log: seq<Opt>, detached: bool, more: bool): Act {
    if e.accept(log, o) then Go(log + [o], detached, more) else Stop
  }

  /** taken counts the arguments used up: one, or two with a detached argument. */
  datatype Parsed = Failed | Parsed(log: seq<Opt>, taken: nat)

  function Taken(detached: bool): nat { if detached then 2 else 1 }

  function AfterName(name: string, next: Option<string>, i: nat): Arg
    requires i <= |name|
    decreases |name| - i
  {
    if i < |name| && name[i] != '=' then AfterName(name, next, i + 1)
    else if i < |name| then Attached(name[i + 1..])
    else if next.Some? then Detached(next.value) else NoArg
  }

  function ParseLong(e: Env, word: string, name: string, next: Option<string>, log: seq<Opt>): Parsed {
    match ActOn(e, FindLong(e, name), word, AfterName(name, next, 0), log)
    case Stop => Failed
    case Go(l, detached, _) => Parsed(l, Taken(detached))
  }

  /** The short options of a group from place p on. */
  function ParseShorts(e: Env, word: string, p: nat, next: Option<string>, log: seq<Opt>): Parsed
    requires p <= |word|
    decreases |word| - p
  {
    if p == |word| then Parsed(log, 1)
    else
      var arg := if p + 1 < |word| then Attached(word[p + 1..]) else if next.Some? then Detached(next.value) else NoArg;
      match ActOn(e, FindShort(e.usage, word[p], 0), word[p..], arg, log)
      case Stop => Failed
      case Go(l, detached, more) => if more then ParseShorts(e, word, p + 1, next, l) else Parsed(l, Taken(detached))
  }

  predicate IsNonOption(word: string) { word == "" || word[0] != '-' || |word| == 1 }

  function ParseOption(e: Env, word: string, next: Option<string>, log: seq<Opt>): (r: Parsed)
    requires !IsNonOption(word)
  {
    if word[1] == '-' then ParseLong(e, word, word[2..], next, log)
    else if e.singleMinusLongopt && FindLong(e, word[1..]) < |e.usage| then ParseLong(e, word, word[1..], next, log)
    else ParseShorts(e, word, 1, next, log)
  }

  lemma ActTakesWhatIsThere(e: Env, idx: nat, name: string, arg: Arg, log: seq<Opt>)
    requires idx <= |e.usage|
    ensures var a := ActOn(e, idx, name, arg, log); a.Go? && a.detached ==> arg.Detached? && !a.more
  {}

  lemma {:induction false} ShortsTake(e: Env, word: string, p: nat, next: Option<string>, log: seq<Opt>)
    requires p <= |word|
    ensures var r := ParseShorts(e, word, p, next, log); r.Parsed? ==> r.taken == 1 || (r.taken == 2 && next.Some?)
    decreases |word| - p
  {
    hide ActOn;
    if p < |word| {
      var arg := if p + 1 < |word| then Attached(word[p + 1..]) else if next.Some? then Detached(next.value) else NoArg;
      var idx := FindShort(e.usage, word[p], 0);
      ActTakesWhatIsThere(e, idx, word[p..], arg, log);
      var a := ActOn(e, idx, word[p..], arg, log);
      if a.Go? && a.more {
        ShortsTake(e, word, p + 1, next, a.log);
      }
    }
  }

  lemma {:induction false} AfterNameIsThere(name: string, next: Option<string>, i: nat)
    requires i <= |name|
    ensures AfterName(name, next, i).Detached? ==> next.Some?
    decreases |name| - i
  {
    if i < |name| && name[i] != '=' {
      AfterNameIsThere(name, next, i + 1);
    }
  }

  lemma OptionTakes(e: Env, word: string, next: Option<string>, log: seq<Opt>)
    requires !IsNonOption(word)
    ensures var r := ParseOption(e, word, next, log); r.Parsed? ==> r.taken == 1 || (r.taken == 2 && next.Some?)
  {
    hide ActOn, FindLong;
    if word[1] == '-' {
      AfterNameIsThere(word[2..], next, 0);
      ActTakesWhatIsThere(e, FindLong(e, word[2..]), word, AfterName(word[2..], next, 0), log);
    } else if e.singleMinusLongopt && FindLong(e, word[1..]) < |e.usage| {
      AfterNameIsThere(word[1..], next, 0);
      ActTakesWhatIsThere(e, FindLong(e, word[1..]), word, AfterName(word[1..], next, 0), log);
    } else {
      ShortsTake(e, word, 1, next, log);
    }
  }

  // -------------------------------------------------------------- all arguments

  /** marks says of every argument whether it was used up as an option, as an option's argument or as the terminator. */
  datatype Scan = Refused | Scanned(marks: seq<bool>, log: seq<Opt>)

  function Unmarked(n: nat): seq<bool> { seq(n, _ => false) }

  function Marked(n: nat): seq<bool> { seq(n, _ => true) }

  function Next(args: seq<string>): Option<string> { if |args| > 1 then Some(args[1]) else None }

  function Prefixed(marks: seq<bool>, s: Scan): Scan {
    if s.Refused? then s else s.(marks := marks + s.marks)
  }

  function ScanAll(e: Env, args: seq<string>, log: seq<Opt>): (s: Scan)
    ensures s.Scanned? ==> |s.marks| == |args|
    decreases |args|
  {
    if args == [] then Scanned([], log)
    else if IsNonOption(args[0]) then
      if e.gnu then Prefixed([false], ScanAll(e, args[1..], log)) else Scanned(Unmarked(|args|), log)
    else if args[0] == "--" then Scanned([true] + Unmarked(|args| - 1), log)
    else
      OptionTakes(e, args[0], Next(args), log);
      match ParseOption(e, args[0], Next(args), log)
      case Failed => Refused
      case Parsed(l, taken) => Prefixed(Marked(taken), ScanAll(e, args[taken..], l))
  }

  ghost predicate OptionOrBehindOne(args: seq<string>, i: nat)
    requires i < |args|
  {
    !IsNonOption(args[i]) || (i > 0 && !IsNonOption(args[i - 1]))
  }

  ghost predicate MarkMeans(args: seq<string>, marks: seq<bool>, i: nat)
    requires |args| == |marks| && i < |args|
  {
    if marks[i] then !IsNonOption(args[i]) || (i > 0 && marks[i - 1] && !IsNonOption(args[i - 1]))
    else IsNonOption(args[i]) || "--" in args[..i]
  }

  /** In gnu mode only options and what directly follows one are used up, and only non-options are left before the
      terminator. */
  lemma {:induction false} MarksMean(e: Env, args: seq<string>, log: seq<Opt>, i: nat)
    requires e.gnu && ScanAll(e, args, log).Scanned? && i < |args|
    ensures MarkMeans(args, ScanAll(e, args, log).marks, i)
    decreases |args|
  {
    hide ParseOption;
    var m := ScanAll(e, args, log).marks;
    if IsNonOption(args[0]) {
      MarksMeanLater(e, args, m, 1, log, i);
    } else if args[0] == "--" {
      if i > 0 {
        assert args[..i][0] == "--";
      }
    } else {
      OptionTakes(e, args[0], Next(args), log);
      var p := ParseOption(e, args[0], Next(args), log);
      MarksMeanLater(e, args, m, p.taken, p.log, i);
    }
  }

  lemma MarksMeanLater(e: Env, args: seq<string>, m: seq<bool>, k: nat, log: seq<Opt>, i: nat)
    requires e.gnu && 1 <= k <= 2 && k <= |args| == |m| && i < |args|
    requires var s := ScanAll(e, args[k..], log); s.Scanned? && m[k..] == s.marks
    requires if IsNonOption(args[0]) then k == 1 && !m[0] else m[0] && (k == 2 ==> m[1])
    ensures MarkMeans(args, m, i)
    decreases |args|, 0
  {
    if i >= k {
      MarksMean(e, args[k..], log, i - k);
      hide ScanAll;
      MeansBehind(args, m, k, i);
    }
  }

  lemma MeansBehind(args: seq<string>, m: seq<bool>, k: nat, i: nat)
    requires k <= i < |args| == |m| && MarkMeans(args[k..], m[k..], i - k)
    ensures MarkMeans(args, m, i)
  {
    hide IsNonOption;
    var rest, later := args[k..], m[k..];
    assert rest[i - k] == args[i] && later[i - k] == m[i];
    if i > k {
      assert rest[i - k - 1] == args[i - 1] && later[i - k - 1] == m[i - 1];
    }
    assert args[..i] == args[..k] + rest[..i - k];
  }

  /** The first k arguments are used up and no other: they are options and what directly follows one, and the
      argument behind them is the first that is neither, or stands behind the terminator. */
  ghost predicate StopsAt(args: seq<string>, marks: seq<bool>, k: nat)
    requires |args| == |marks|
  {
    && k <= |args| && (forall i :: 0 <= i < |args| ==> (marks[i] <==> i < k))
    && (forall i :: 0 <= i < k ==> OptionOrBehindOne(args, i))
    && (k < |args| ==> IsNonOption(args[k]) || (k > 0 && args[k - 1] == "--"))
  }

  /** Outside gnu mode the scan stops at the first argument that is no option and follows none, or behind the
      terminator. */
  lemma {:induction false} PosixStops(e: Env, args: seq<string>, log: seq<Opt>) returns (k: nat)
    requires !e.gnu && ScanAll(e, args, log).Scanned?
    ensures StopsAt(args, ScanAll(e, args, log).marks, k)
    decreases |args|
  {
    hide ParseOption, IsNonOption;
    if args == [] || IsNonOption(args[0]) {
      k := 0;
    } else if args[0] == "--" {
      k := 1;
    } else {
      OptionTakes(e, args[0], Next(args), log);
      var p := ParseOption(e, args[0], Next(args), log);
      var rest := args[p.taken..];
      var later := PosixStops(e, rest, p.log);
      k := p.taken + later;
      var m, n := ScanAll(e, args, log).marks, ScanAll(e, rest, p.log).marks;
      hide ScanAll;
      assert m == Marked(p.taken) + n;
      PosixLater(args, m, p.taken, rest, n, later);
    }
  }

  lemma PosixLater(args: seq<string>, m: seq<bool>, taken: nat, rest: seq<string>, n: seq<bool>, later: nat)
    requires 1 <= taken <= 2 && taken <= |args| == |m| && rest == args[taken..] && |rest| == |n|
    requires m == Marked(taken) + n && !IsNonOption(args[0]) && StopsAt(rest, n, later)
    ensures StopsAt(args, m, taken + later)
  {
    var k := taken + later;
    forall i | 0 <= i < k ensures OptionOrBehindOne(args, i) {
      if i >= taken {
        var j := i - taken;
        assert OptionOrBehindOne(rest, j);
        assert args[i] == rest[j];
        if j > 0 { assert args[i - 1] == rest[j - 1]; }
      }
    }
    if k < |args| {
      assert args[k] == rest[later] && (later > 0 ==> args[k - 1] == rest[later - 1]);
    }
  }

  /** The arguments with the given mark, in their order. */
  function Select(args: seq<string>, marks: seq<bool>, mark: bool): seq<string>
    requires |args| == |marks|
  {
    if args == [] then []
    else
      var n := |args| - 1;
      Select(args[..n], marks[..n], mark) + (if marks[n] == mark then [args[n]] else [])
  }

  function Reordered(args: seq<string>, marks: seq<bool>): seq<string>
    requires |args| == |marks|
  {
    Select(args, marks, true) + Select(args, marks, false)
  }

  lemma {:induction false} SelectsAreAll(args: seq<string>, marks: seq<bool>)
    requires |args| == |marks|
    ensures multiset(Reordered(args, marks)) == multiset(args)
  {
    hide Select, Reordered;
    if args == [] {
      ReorderedNothing();
    } else {
      var n := |args| - 1;
      SelectsAreAll(args[..n], marks[..n]);
      ReorderedOneMore(args[..n], marks[..n], args[n], marks[n]);
      assert args == args[..n] + [args[n]] && marks == marks[..n] + [marks[n]];
    }
  }

  lemma ReorderedNothing()
    ensures Reordered([], []) == []
  {}

  lemma ReorderedOneMore(args: seq<string>, marks: seq<bool>, a: string, m: bool)
    requires |args| == |marks|
    ensures multiset(Reordered(args + [a], marks + [m])) == multiset(Reordered(args, marks)) + multiset{a}
  {
    hide Select;
    var used, left := Select(args, marks, true), Select(args, marks, false);
    SelectOne(args, marks, a, m, true);
    SelectOne(args, marks, a, m, false);
    assert used + [] == used && left + [] == left;
    InsertedOne(used, left, a);
  }

  lemma InsertedOne(x: seq<string>, y: seq<string>, a: string)
    ensures multiset(x + [a] + y) == multiset(x + y) + multiset{a}
    ensures multiset(x + (y + [a])) == multiset(x + y) + multiset{a}
  {}

  lemma SelectOne(args: seq<string>, marks: seq<bool>, a: string, m: bool, mark: bool)
    requires |args| == |marks|
    ensures Select(args + [a], marks + [m], mark) == Select(args, marks, mark) + (if m == mark then [a] else [])
  {
    assert (args + [a])[..|args|] == args && (marks + [m])[..|args|] == marks;
  }

  lemma {:induction false} SelectUnmarked(args: seq<string>, marks: seq<bool>, rest: seq<string>, mark: bool)
    requires |args| == |marks|
    ensures Select(args + rest, marks + Unmarked(|rest|), mark)
      == Select(args, marks, mark) + (if mark then [] else rest)
    decreases |rest|
  {
    hide Select;
    if rest == [] {
      assert args + rest == args && marks + Unmarked(0) == marks;
    } else {
      var n := |rest| - 1;
      SelectUnmarked(args, marks, rest[..n], mark);
      SelectOne(args + rest[..n], marks + Unmarked(n), rest[n], false, mark);
      assert args + rest == args + rest[..n] + [rest[n]] && marks + Unmarked(|rest|) == marks + Unmarked(n) + [false];
      assert rest == rest[..n] + [rest[n]];
    }
  }

  // -------------------------------------------------------------------- in place

  /** Rotates the argument at a place in front of the count arguments before it. */
  method Shift(args: array<string>, at: nat, count: nat)
    requires count <= at < args.Length
    modifies args
    ensures args[..] == old(args[..at - count]) + [old(args[at])] + old(args[at - count..at]) + old(args[at + 1..])
  {
    hide Rotated;
    ghost var before := args[..];
    RotatedNot(before, at);
    var i := 0;
    while i < count
      invariant i <= count && Rotated(args[..], before, at, i)
    {
      RotatedOnce(args[..], before, at, i);
      var temp := args[at - i];
      args[at - i] := args[at - i - 1];
      args[at - i - 1] := temp;
      i := i + 1;
    }
    RotatedParts(args[..], before, at, count);
  }

  /** The argument has passed i others. */
  ghost predicate Rotated(now: seq<string>, before: seq<string>, at: nat, i: nat) {
    && i <= at < |before| == |now| && now[at - i] == before[at]
    && (forall k :: at - i < k <= at ==> now[k] == before[k - 1])
    && (forall k :: 0 <= k < |now| && !(at - i <= k <= at) ==> now[k] == before[k])
  }

  lemma RotatedNot(before: seq<string>, at: nat)
    requires at < |before|
    ensures Rotated(before, before, at, 0)
  {}

  lemma RotatedOnce(now: seq<string>, before: seq<string>, at: nat, i: nat)
    requires Rotated(now, before, at, i) && i < at
    ensures Rotated(now[at - i := now[at - i - 1]][at - i - 1 := now[at - i]], before, at, i + 1)
  {}

  lemma RotatedParts(now: seq<string>, before: seq<string>, at: nat, count: nat)
    requires Rotated(now, before, at, count)
    ensures now == before[..at - count] + [before[at]] + before[at - count..at] + before[at + 1..]
  {
    var parts := before[..at - count] + [before[at]] + before[at - count..at] + before[at + 1..];
    assert |parts| == |now|;
    forall k | 0 <= k < |now| ensures now[k] == parts[k] {}
  }

  /** The order after an option with so many arguments at a place has been moved before the non-options in front of
      it. */
  function Moved(args: seq<string>, pos: nat, nonops: nat, taken: nat): (r: seq<string>)
    requires nonops <= pos && pos + taken <= |args|
    ensures |r| == |args|
  {
    args[..pos - nonops] + args[pos..pos + taken] + args[pos - nonops..pos] + args[pos + taken..]
  }

  lemma MovedOnce(args: seq<string>, r: seq<string>, pos: nat, nonops: nat)
    requires nonops <= pos < |args|
    requires r == args[..pos - nonops] + [args[pos]] + args[pos - nonops..pos] + args[pos + 1..]
    ensures r == Moved(args, pos, nonops, 1)
  {
    assert args[pos..pos + 1] == [args[pos]];
  }

  lemma MovedTwice(args: seq<string>, r: seq<string>, pos: nat, nonops: nat)
    requires nonops <= pos && pos + 1 < |args|
    requires var m := Moved(args, pos, nonops, 1);
      r == m[..pos + 1 - nonops] + [m[pos + 1]] + m[pos + 1 - nonops..pos + 1] + m[pos + 2..]
    ensures r == Moved(args, pos, nonops, 2)
  {
    hide Moved;
    var a, b, c := args[..pos - nonops], args[pos - nonops..pos], args[pos + 2..];
    var x, y := [args[pos]], [args[pos + 1]];
    MovedParts(args, pos, nonops);
    var m := Moved(args, pos, nonops, 1);
    assert |a + x| == pos + 1 - nonops && |a + x + b| == pos + 1;
    assert m[..pos + 1 - nonops] == a + x;
    assert m[pos + 1 - nonops..pos + 1] == b;
    assert [m[pos + 1]] == y && m[pos + 2..] == c;
    assert a + x + y + b + c == a + (x + y) + b + c;
  }

  lemma MovedParts(args: seq<string>, pos: nat, nonops: nat)
    requires nonops <= pos && pos + 1 < |args|
    ensures var a, b, c := args[..pos - nonops], args[pos - nonops..pos], args[pos + 2..];
      var x, y := [args[pos]], [args[pos + 1]];
      Moved(args, pos, nonops, 1) == a + x + b + y + c && Moved(args, pos, nonops, 2) == a + (x + y) + b + c
  {
    assert args[pos..pos + 1] == [args[pos]] && args[pos..pos + 2] == [args[pos]] + [args[pos + 1]];
    assert args[pos + 1..] == [args[pos + 1]] + args[pos + 2..];
  }

  lemma MovedKeepsAll(args: seq<string>, pos: nat, nonops: nat, taken: nat)
    requires nonops <= pos && pos + taken <= |args|
    ensures multiset(Moved(args, pos, nonops, taken)) == multiset(args)
  {
    var a, b, c, d := args[..pos - nonops], args[pos - nonops..pos], args[pos..pos + taken], args[pos + taken..];
    assert args == a + b + c + d;
    Exchanged(a, b, c, d);
  }

  lemma Exchanged(a: seq<string>, b: seq<string>, c: seq<string>, d: seq<string>)
    ensures multiset(a + c + b + d) == multiset(a + b + c + d)
  {}

  /** Checks one option, moves the argument it sits in when a detached argument follows, and hands it on. */
  method TakeOption(e: Env, args: array<string>, pos: nat, nonops: nat, idx: nat, name: string, arg: Arg,
                    log0: seq<Opt>)
    returns (ok: bool, moved: bool, more: bool, log: seq<Opt>)
    requires nonops <= pos < args.Length && idx <= |e.usage|
    modifies args
    ensures multiset(args[..]) == multiset(old(args[..]))
    ensures match ActOn(e, idx, name, arg, log0)
      case Stop => !ok
      case Go(l, d, m) =>
        ok && log == l && moved == d && more == m
        && args[..] == if d then Moved(old(args[..]), pos, nonops, 1) else old(args[..])
  {
    hide FindDummy, Moved;
    ghost var before := args[..];
    ok, moved, more, log := true, false, true, log0;
    var d := if idx < |e.usage| then idx else FindDummy(e.usage, 0);
    if d < |e.usage| {
      var text := TextOf(arg);
      match e.check(d, name, text) {
        case ArgIllegal =>
          return false, moved, more, log;
        case ArgOk =>
          if arg.Detached? {
            Shift(args, pos, nonops);
            MovedOnce(before, args[..], pos, nonops);
            MovedKeepsAll(before, pos, nonops, 1);
            moved := true;
          }
          more := false;
        case _ =>
          text := None;
      }
      if !e.accept(log, Opt(d, name, text)) {
        return false, moved, more, log;
      }
      log := log + [Opt(d, name, text)];
    }
  }

  /** What the loop comes to for a long option, behind one minus or two. */
  lemma OptionLong(e: Env, word: string, next: Option<string>, log: seq<Opt>, at: nat)
    requires !IsNonOption(word)
    requires if word[1] == '-' then at == 2 else at == 1 && e.singleMinusLongopt && FindLong(e, word[1..]) < |e.usage|
    ensures at <= |word|
    ensures ParseOption(e, word, next, log) ==
      match ActOn(e, FindLong(e, word[at..]), word, AfterName(word[at..], next, 0), log)
      case Stop => Failed
      case Go(l, detached, _) => Parsed(l, Taken(detached))
  {
    hide ActOn, FindLong, AfterName;
  }

  lemma OptionShort(e: Env, word: string, next: Option<string>, log: seq<Opt>)
    requires !IsNonOption(word) && word[1] != '-'
    requires !(e.singleMinusLongopt && FindLong(e, word[1..]) < |e.usage|)
    ensures ParseOption(e, word, next, log) == ParseShorts(e, word, 1, next, log)
  {
    hide ActOn, FindLong, ParseShorts;
  }

  lemma ShortsStep(e: Env, word: string, p: nat, next: Option<string>, log: seq<Opt>, arg: Arg)
    requires p < |word|
    requires arg == if p + 1 < |word| then Attached(word[p + 1..]) else if next.Some? then Detached(next.value)
      else NoArg
    ensures ParseShorts(e, word, p, next, log) ==
      match ActOn(e, FindShort(e.usage, word[p], 0), word[p..], arg, log)
      case Stop => Failed
      case Go(l, detached, more) => if more then ParseShorts(e, word, p + 1, next, l) else Parsed(l, Taken(detached))
  {
    hide ActOn, FindShort;
  }

  lemma ShortsEnd(e: Env, word: string, next: Option<string>, log: seq<Opt>)
    ensures ParseShorts(e, word, |word|, next, log) == Parsed(log, 1)
  {}

  /** The body of the loop for one option argument. */
  method HandleOption(e: Env, args: array<string>, pos: nat, nonops: nat, log0: seq<Opt>)
    returns (ok: bool, after: nat, log: seq<Opt>)
    requires nonops <= pos < args.Length && !IsNonOption(args[pos])
    modifies args
    ensures multiset(args[..]) == multiset(old(args[..]))
    ensures var r := ParseOption(e, old(args[pos]), Next(old(args[pos..])), log0);
      if r.Failed? then !ok
      else
        ok && log == r.log && after == pos + r.taken <= args.Length
        && args[..] == Moved(old(args[..]), pos, nonops, r.taken)
  {
    hide FindLong, FindShort, AfterName, ActOn, Moved, ParseOption, ParseShorts;
    ghost var before, next := args[..], Next(args[pos..]);
    var word := args[pos];
    ghost var goal := ParseOption(e, word, next, log0);
    OptionTakes(e, word, next, log0);
    var haveMore := args.Length - pos > 1;
    var follower := if haveMore then Some(args[pos + 1]) else None;
    assert follower == next;
    var p, nameAt, handleShort := 0, if word[1] == '-' then 2 else 1, word[1] != '-';
    var trySingle, moved := e.singleMinusLongopt, false;
    log := log0;
    while true
      invariant !moved && args[..] == before && p < |word|
      invariant p == 0 ==> handleShort == (word[1] != '-') && trySingle == e.singleMinusLongopt && log == log0
                           && goal == ParseOption(e, word, next, log)
      invariant p > 0 ==> handleShort && !trySingle && goal == ParseShorts(e, word, p + 1, next, log)
      decreases |word| - p
    {
      var idx, arg := |e.usage|, NoArg;
      if !handleShort || trySingle {
        idx := FindLong(e, word[nameAt..]);
        if idx < |e.usage| {
          handleShort := false;
        }
        trySingle := false;
        arg := AfterName(word[nameAt..], follower, 0);
      }
      if handleShort {
        if p == 0 { OptionShort(e, word, next, log); }
        p := p + 1;
        if p == |word| {
          ShortsEnd(e, word, next, log);
          break;
        }
        idx := FindShort(e.usage, word[p], 0);
        arg := if p + 1 < |word| then Attached(word[p + 1..]) else if haveMore then Detached(args[pos + 1]) else NoArg;
        ShortsStep(e, word, p, next, log, arg);
      } else {
        OptionLong(e, word, next, log, nameAt);
      }
      var name := if handleShort then word[p..] else word;
      ActTakesWhatIsThere(e, idx, name, arg, log);
      var more: bool;
      ok, moved, more, log := TakeOption(e, args, pos, nonops, idx, name, arg, log);
      if !ok {
        return false, pos, log;
      }
      if !more {
        handleShort := false;
      }
      if !handleShort {
        break;
      }
    }
    after := if moved then pos + 1 else pos;
    assert goal == Parsed(log, after - pos + 1);
    FinishMove(args, before, pos, nonops, moved);
    after := after + 1;
    ok := true;
  }

  /** The last argument of the option goes the same way. */
  method FinishMove(args: array<string>, ghost before: seq<string>, pos: nat, nonops: nat, moved: bool)
    requires |before| == args.Length && nonops <= pos && (if moved then pos + 1 else pos) < args.Length
    requires args[..] == if moved then Moved(before, pos, nonops, 1) else before
    modifies args
    ensures args[..] == Moved(before, pos, nonops, Taken(moved)) && multiset(args[..]) == multiset(before)
  {
    hide Moved;
    MovedKeepsAll(before, pos, nonops, Taken(moved));
    if moved {
      Shift(args, pos + 1, nonops);
      MovedTwice(before, args[..], pos, nonops);
    } else {
      Shift(args, pos, nonops);
      MovedOnce(before, args[..], pos, nonops);
    }
  }

  lemma MovedSelected(front: seq<string>, back: seq<string>, rest: seq<string>, taken: nat)
    requires taken <= |rest|
    ensures Moved(front + back + rest, |front| + |back|, |back|, taken)
      == (front + rest[..taken]) + back + rest[taken..]
  {
    var all, pos := front + back + rest, |front| + |back|;
    assert all[..pos - |back|] == front && all[pos - |back|..pos] == back;
    assert all[pos..pos + taken] == rest[..taken] && all[pos + taken..] == rest[taken..];
  }

  lemma {:induction false} SelectMarked(args: seq<string>, marks: seq<bool>, more: seq<string>, mark: bool)
    requires |args| == |marks| && |more| <= 2
    ensures Select(args + more, marks + Marked(|more|), mark) == Select(args, marks, mark) + (if mark then more else [])
    decreases |more|
  {
    hide Select;
    if more == [] {
      assert args + more == args && marks + Marked(0) == marks;
    } else {
      var n := |more| - 1;
      SelectMarked(args, marks, more[..n], mark);
      SelectOne(args + more[..n], marks + Marked(n), more[n], true, mark);
      assert args + more == args + more[..n] + [more[n]] && marks + Marked(|more|) == marks + Marked(n) + [true];
      assert more == more[..n] + [more[n]];
    }
  }

  /** What the loop keeps: so far the marked arguments stand in front, then the others, then what has not been looked
      at. */
  ghost predicate Sorted(e: Env, before: seq<string>, now: seq<string>, pos: nat, nonops: nat, marks: seq<bool>,
                         log: seq<Opt>) {
    && pos <= |before| && |marks| == pos
    && now == Select(before[..pos], marks, true) + Select(before[..pos], marks, false) + before[pos..]
    && nonops == |Select(before[..pos], marks, false)|
    && nonops + |Select(before[..pos], marks, true)| == pos
    && ScanAll(e, before, []) == Prefixed(marks, ScanAll(e, before[pos..], log))
  }

  lemma SortedKeepsAll(e: Env, before: seq<string>, now: seq<string>, pos: nat, nonops: nat, marks: seq<bool>,
                       log: seq<Opt>)
    requires Sorted(e, before, now, pos, nonops, marks, log)
    ensures multiset(now) == multiset(before)
  {
    hide Select, ScanAll;
    SelectsAreAll(before[..pos], marks);
    assert before == before[..pos] + before[pos..];
  }

  lemma SortedStart(e: Env, before: seq<string>)
    ensures Sorted(e, before, before, 0, 0, [], [])
  {
    var s := ScanAll(e, before, []);
    assert before[0..] == before && (s.Scanned? ==> [] + s.marks == s.marks);
    assert Select(before[..0], [], true) + Select(before[..0], [], false) + before == before;
  }

  lemma PrefixedTwice(x: seq<bool>, y: seq<bool>, s: Scan)
    ensures Prefixed(x, Prefixed(y, s)) == Prefixed(x + y, s)
  {
    if s.Scanned? {
      assert x + (y + s.marks) == (x + y) + s.marks;
    }
  }

  lemma SortedNonOption(e: Env, before: seq<string>, now: seq<string>, pos: nat, nonops: nat, marks: seq<bool>,
                        log: seq<Opt>)
    requires Sorted(e, before, now, pos, nonops, marks, log) && pos < |before| && IsNonOption(before[pos]) && e.gnu
    ensures Sorted(e, before, now, pos + 1, nonops + 1, marks + [false], log)
  {
    hide Select;
    var a := before[pos];
    assert before[..pos + 1] == before[..pos] + [a] && before[pos..][1..] == before[pos + 1..]
      && before[pos..] == [a] + before[pos + 1..];
    SelectOne(before[..pos], marks, a, false, true);
    SelectOne(before[..pos], marks, a, false, false);
    PrefixedTwice(marks, [false], ScanAll(e, before[pos + 1..], log));
  }

  lemma SortedOption(e: Env, before: seq<string>, now: seq<string>, pos: nat, nonops: nat, marks: seq<bool>,
                     log: seq<Opt>, taken: nat, log': seq<Opt>)
    requires Sorted(e, before, now, pos, nonops, marks, log) && pos < |before| && !IsNonOption(before[pos])
      && before[pos] != "--"
    requires ParseOption(e, before[pos], Next(before[pos..]), log) == Parsed(log', taken) && pos + taken <= |before|
      && 1 <= taken <= 2
    ensures nonops <= pos && |now| == |before|
    ensures Sorted(e, before, Moved(now, pos, nonops, taken), pos + taken, nonops, marks + Marked(taken), log')
  {
    hide ParseOption, Select, Moved;
    var rest := before[pos..];
    var front, back := Select(before[..pos], marks, true), Select(before[..pos], marks, false);
    MovedSelected(front, back, rest, taken);
    assert before[..pos + taken] == before[..pos] + rest[..taken] && rest[taken..] == before[pos + taken..]
      && rest[0] == before[pos];
    SelectMarked(before[..pos], marks, rest[..taken], true);
    SelectMarked(before[..pos], marks, rest[..taken], false);
    PrefixedTwice(marks, Marked(taken), ScanAll(e, rest[taken..], log'));
    assert back + [] == back;
  }

  /** Everything from here on is left as it is. */
  lemma SortedStop(e: Env, before: seq<string>, now: seq<string>, pos: nat, nonops: nat, marks: seq<bool>,
                   log: seq<Opt>)
    requires Sorted(e, before, now, pos, nonops, marks, log)
    requires ScanAll(e, before[pos..], log) == Scanned(Unmarked(|before| - pos), log)
    ensures var s := ScanAll(e, before, []);
      s.Scanned? && s.log == log && now == Reordered(before, s.marks) &&
      |Select(before, s.marks, true)| == pos - nonops && |Select(before, s.marks, false)| == |before| - pos + nonops
  {
    hide Select;
    SelectUnmarked(before[..pos], marks, before[pos..], true);
    SelectUnmarked(before[..pos], marks, before[pos..], false);
    assert before[..pos] + before[pos..] == before;
    var s := ScanAll(e, before, []);
    hide ScanAll;
    assert s.marks == marks + Unmarked(|before[pos..]|);
  }

  lemma SortedEnd(e: Env, before: seq<string>, now: seq<string>, pos: nat, nonops: nat, marks: seq<bool>, log: seq<Opt>)
    requires Sorted(e, before, now, pos, nonops, marks, log) && pos < |before| && before[pos] == "--"
    ensures nonops <= pos && |now| == |before|
    ensures var s := ScanAll(e, before, []);
      s.Scanned? && s.log == log && Moved(now, pos, nonops, 1) == Reordered(before, s.marks) &&
      |Select(before, s.marks, true)| == pos + 1 - nonops
        && |Select(before, s.marks, false)| == |before| - (pos + 1) + nonops
  {
    hide Select, Moved;
    var rest := before[pos..];
    var front, back := Select(before[..pos], marks, true), Select(before[..pos], marks, false);
    MovedSelected(front, back, rest, 1);
    assert rest[0] == before[pos] && rest[..1] == ["--"] && rest[1..] == before[pos + 1..];
    assert before[..pos + 1] == before[..pos] + ["--"];
    SelectOne(before[..pos], marks, "--", true, true);
    SelectOne(before[..pos], marks, "--", true, false);
    SelectUnmarked(before[..pos + 1], marks + [true], before[pos + 1..], true);
    SelectUnmarked(before[..pos + 1], marks + [true], before[pos + 1..], false);
    assert before[..pos + 1] + before[pos + 1..] == before;
    var s := ScanAll(e, before, []);
    assert !IsNonOption("--");
    assert s.marks == (marks + [true]) + Unmarked(|before| - pos - 1);
    hide ScanAll;
    assert back + [] == back;
  }

  lemma SortedHere(e: Env, before: seq<string>, now: seq<string>, pos: nat, nonops: nat, marks: seq<bool>,
                   log: seq<Opt>)
    requires Sorted(e, before, now, pos, nonops, marks, log)
    ensures |now| == |before| && nonops <= pos && now[pos..] == before[pos..]
      && (pos < |before| ==> now[pos] == before[pos])
  {
    hide Select, ScanAll;
  }

  lemma SortedFails(e: Env, before: seq<string>, now: seq<string>, pos: nat, nonops: nat, marks: seq<bool>,
                    log: seq<Opt>)
    requires Sorted(e, before, now, pos, nonops, marks, log) && pos < |before| && !IsNonOption(before[pos])
      && before[pos] != "--"
    requires ParseOption(e, before[pos], Next(before[pos..]), log) == Failed
    ensures ScanAll(e, before, []).Refused?
  {
    hide Select, ParseOption;
    assert before[pos..][0] == before[pos];
  }

  lemma StopsHere(e: Env, before: seq<string>, now: seq<string>, pos: nat, nonops: nat, marks: seq<bool>, log: seq<Opt>)
    requires Sorted(e, before, now, pos, nonops, marks, log)
      && (pos == |before| || (IsNonOption(before[pos]) && !e.gnu))
    ensures var s := ScanAll(e, before, []);
      s.Scanned? && s.log == log && now == Reordered(before, s.marks) &&
      |Select(before, s.marks, true)| == pos - nonops && |Select(before, s.marks, false)| == |before| - pos + nonops
  {
    assert pos < |before| ==> before[pos..][0] == before[pos];
    assert Unmarked(0) == [];
    assert ScanAll(e, before[pos..], log) == Scanned(Unmarked(|before| - pos), log);
    SortedStop(e, before, now, pos, nonops, marks, log);
  }

  /** The terminator goes in front of the non-options, and everything behind it is one. */
  method MoveTerminator(e: Env, args: array<string>, ghost before: seq<string>, pos: nat, nonops: nat,
                        ghost marks: seq<bool>, ghost log: seq<Opt>)
    requires Sorted(e, before, args[..], pos, nonops, marks, log) && pos < |before| && before[pos] == "--"
    modifies args
    ensures multiset(args[..]) == multiset(old(args[..]))
    ensures var s := ScanAll(e, before, []);
      s.Scanned? && s.log == log && args[..] == Reordered(before, s.marks) &&
      |Select(before, s.marks, true)| == pos + 1 - nonops
        && |Select(before, s.marks, false)| == |before| - (pos + 1) + nonops
  {
    hide Sorted, Moved, Select, ScanAll, Reordered;
    ghost var now := args[..];
    SortedEnd(e, before, now, pos, nonops, marks, log);
    Shift(args, pos, nonops);
    MovedOnce(now, args[..], pos, nonops);
    MovedKeepsAll(now, pos, nonops, 1);
  }

  /** An option goes in front of the non-options, and its detached argument with it. */
  method MoveOption(e: Env, args: array<string>, ghost before: seq<string>, pos: nat, nonops: nat,
                    ghost marks: seq<bool>, log: seq<Opt>)
    returns (good: bool, after: nat, log': seq<Opt>)
    requires Sorted(e, before, args[..], pos, nonops, marks, log) && pos < |before|
    requires !IsNonOption(before[pos]) && before[pos] != "--"
    modifies args
    ensures !good ==> ScanAll(e, before, []).Refused? && multiset(args[..]) == multiset(before)
    ensures good ==>
      pos < after <= |before| && Sorted(e, before, args[..], after, nonops, marks + Marked(after - pos), log')
  {
    hide Sorted, Moved, ParseOption, Select, ScanAll, IsNonOption, Next, Reordered, Marked;
    ghost var now := args[..];
    SortedHere(e, before, now, pos, nonops, marks, log);
    OptionTakes(e, args[pos], Next(before[pos..]), log);
    good, after, log' := HandleOption(e, args, pos, nonops, log);
    if good {
      SortedOption(e, before, now, pos, nonops, marks, log, after - pos, log');
    } else {
      SortedFails(e, before, now, pos, nonops, marks, log);
      SortedKeepsAll(e, before, now, pos, nonops, marks, log);
    }
  }

  /**
   * The whole loop. When no option is refused, the arguments end as a stable partition: what was used up in its order,
   * then everything else in its order, and the second part is what is handed on as the non-option arguments.
   */
  method Workhorse(e: Env, args: array<string>) returns (ok: bool, first: nat, count: nat, log: seq<Opt>)
    modifies args
    ensures multiset(args[..]) == multiset(old(args[..]))
    ensures var s := ScanAll(e, old(args[..]), []);
      if s.Refused? then !ok
      else
        ok && log == s.log && args[..] == Reordered(old(args[..]), s.marks) &&
        first == |Select(old(args[..]), s.marks, true)| && count == |Select(old(args[..]), s.marks, false)|
  {
    hide Sorted, Moved, ParseOption, Select, ScanAll, IsNonOption, Next, Reordered, Marked;
    ghost var before := args[..];
    var pos, nonops := 0, 0;
    ghost var marks := [];
    log := [];
    SortedStart(e, before);
    while pos < args.Length
      invariant pos <= args.Length && Sorted(e, before, args[..], pos, nonops, marks, log)
    {
      SortedHere(e, before, args[..], pos, nonops, marks, log);
      var param := args[pos];
      if IsNonOption(param) {
        if e.gnu {
          SortedNonOption(e, before, args[..], pos, nonops, marks, log);
          marks := marks + [false];
          nonops := nonops + 1;
          pos := pos + 1;
          continue;
        } else {
          break;
        }
      }
      if param == "--" {
        SortedKeepsAll(e, before, args[..], pos, nonops, marks, log);
        MoveTerminator(e, args, before, pos, nonops, marks, log);
        return true, pos + 1 - nonops, args.Length - (pos + 1) + nonops, log;
      }
      var good, after, log' := MoveOption(e, args, before, pos, nonops, marks, log);
      if !good {
        return false, 0, 0, log;
      }
      marks := marks + Marked(after - pos);
      pos, log := after, log';
    }
    StopsHere(e, before, args[..], pos, nonops, marks, log);
    SortedKeepsAll(e, before, args[..], pos, nonops, marks, log);
    ok, first, count := true, pos - nonops, args.Length - pos + nonops;
  }
}
