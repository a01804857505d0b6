/** Which usage entry an option means, and what is handed on for it, stated without the search loops. */
module ArgumentRules {
  import opened Arguments

  // ---------------------------------------------------------------------- names

  /** The option's name without its attached argument. */
  function Stem(s: string): (r: string)
    ensures r <= s && '=' !in r && (|r| == |s| || s[|r|] == '=')
  {
    if s == "" || s[0] == '=' then ""
    else
      var r := Stem(s[1..]);
      assert s == [s[0]] + s[1..];
      [s[0]] + r
  }

  lemma StemIs(s: string, k: nat)
    requires k <= |s| && '=' !in s[..k] && (k == |s| || s[k] == '=')
    ensures Stem(s) == s[..k]
  {
    var r := Stem(s);
    forall i | 0 <= i < k ensures s[i] != '=' { assert s[i] in s[..k]; }
    forall i | 0 <= i < |r| ensures s[i] != '=' { assert s[i] == r[i] && r[i] in r; }
  }

  /** A long option fits a name exactly when it is its stem. */
  lemma StreqExactly(longopt: string, name: string)
    requires '=' !in longopt
    ensures Streq(longopt, name) <==> Stem(name) == longopt
  {
    if longopt <= name && (|longopt| == |name| || name[|longopt|] == '=') {
      StemIs(name, |longopt|);
    }
  }

  /** A name abbreviates a long option exactly when its stem begins it and is long enough, or is all of it. */
  lemma AbbreviatesExactly(longopt: string, name: string, min: int)
    requires '=' !in longopt
    ensures StreqAbbr(longopt, name, min) <==>
      Stem(name) <= longopt && (Stem(name) == longopt || (min > 0 && |Stem(name)| >= min))
  {
    var k, r := Common(longopt, name), Stem(name);
    if k == |name| || name[k] == '=' {
      assert forall c :: c in name[..k] ==> c in longopt;
      StemIs(name, k);
    }
    forall i | 0 <= i < |longopt| ensures longopt[i] != '=' { assert longopt[i] in longopt; }
    forall i | 0 <= i < k ensures longopt[i] == name[i] { assert longopt[..k][i] == name[..k][i]; }
    if r <= longopt {
      assert forall i :: 0 <= i < |r| ==> longopt[i] == name[i];
    }
  }

  // --------------------------------------------------------------------- entries

  ghost predicate PlainNames(usage: seq<Descriptor>) { forall d :: d in usage ==> '=' !in d.longopt }

  ghost predicate Means(usage: seq<Descriptor>, name: string, i: int) {
    0 <= i < |usage| && usage[i].longopt == Stem(name)
  }

  ghost predicate Abbreviates(usage: seq<Descriptor>, name: string, min: int, i: int) {
    0 <= i < |usage| && Stem(name) <= usage[i].longopt && (usage[i].longopt == Stem(name) || |Stem(name)| >= min)
  }

  lemma FirstLongExactly(usage: seq<Descriptor>, name: string, i: nat)
    requires i <= |usage| && PlainNames(usage)
    ensures var k := FirstLong(usage, name, i);
      (k < |usage| ==> Means(usage, name, k)) && forall j :: i <= j < k ==> !Means(usage, name, j)
    decreases |usage| - i
  {
    hide Streq, Stem;
    if i < |usage| {
      assert usage[i] in usage;
      StreqExactly(usage[i].longopt, name);
      if !Streq(usage[i].longopt, name) { FirstLongExactly(usage, name, i + 1); }
    }
  }

  lemma FirstAbbrExactly(usage: seq<Descriptor>, name: string, min: int, i: nat)
    requires i <= |usage| && PlainNames(usage) && min > 0
    ensures var k := FirstAbbr(usage, name, min, i);
      (k < |usage| ==> Abbreviates(usage, name, min, k)) && forall j :: i <= j < k ==> !Abbreviates(usage, name, min, j)
    decreases |usage| - i
  {
    hide StreqAbbr, Stem;
    if i < |usage| {
      assert usage[i] in usage;
      AbbreviatesExactly(usage[i].longopt, name, min);
      if !StreqAbbr(usage[i].longopt, name, min) { FirstAbbrExactly(usage, name, min, i + 1); }
    }
  }

  /** A long option means the first entry with its name; without one, and when abbreviations are allowed, the entry
      that it abbreviates if there is exactly one; otherwise none. */
  lemma FindLongExactly(e: Env, name: string)
    requires PlainNames(e.usage)
    ensures var k := FindLong(e, name);
      && (k < |e.usage| && Means(e.usage, name, k) ==> forall j :: 0 <= j < k ==> !Means(e.usage, name, j))
      && (k < |e.usage| && !Means(e.usage, name, k) ==>
            && (forall j :: !Means(e.usage, name, j)) && e.minAbbrLen > 0
            && (forall j :: Abbreviates(e.usage, name, e.minAbbrLen, j) <==> j == k))
      && (k == |e.usage| ==>
            && (forall j :: !Means(e.usage, name, j))
            && (e.minAbbrLen > 0 ==> forall i :: Abbreviates(e.usage, name, e.minAbbrLen, i) ==>
                  exists j :: j != i && Abbreviates(e.usage, name, e.minAbbrLen, j)))
  {
    hide Means, Abbreviates;
    var usage, min := e.usage, e.minAbbrLen;
    FirstLongExactly(usage, name, 0);
    InTableOnly(usage, name, min);
    if FirstLong(usage, name, 0) == |usage| && min > 0 {
      FirstAbbrExactly(usage, name, min, 0);
      var i1 := FirstAbbr(usage, name, min, 0);
      if i1 < |usage| { FirstAbbrExactly(usage, name, min, i1 + 1); }
    }
  }

  lemma InTableOnly(usage: seq<Descriptor>, name: string, min: int)
    ensures forall j :: Means(usage, name, j) ==> 0 <= j < |usage|
    ensures forall j :: Abbreviates(usage, name, min, j) ==> 0 <= j < |usage|
  {}

  /** A short option means the first entry that lists it, an unknown one the first entry without any name. */
  lemma FindShortExactly(usage: seq<Descriptor>, c: char, i: nat)
    requires i <= |usage|
    ensures var k := FindShort(usage, c, i);
      (k < |usage| ==> c in usage[k].shortopt) && forall j :: i <= j < k ==> c !in usage[j].shortopt
    decreases |usage| - i
  {
    if i < |usage| && c !in usage[i].shortopt { FindShortExactly(usage, c, i + 1); }
  }

  lemma FindDummyExactly(usage: seq<Descriptor>, i: nat)
    requires i <= |usage|
    ensures var k := FindDummy(usage, i);
      && (k < |usage| ==> usage[k].shortopt == usage[k].longopt == "")
      && forall j :: i <= j < k ==> usage[j].shortopt != "" || usage[j].longopt != ""
    decreases |usage| - i
  {
    if i < |usage| && !(usage[i].shortopt == "" && usage[i].longopt == "") { FindDummyExactly(usage, i + 1); }
  }

  // -------------------------------------------------------------------- arguments

  /** What a long option could take: the text behind its first '=', or else the next argument. */
  lemma {:induction false} AfterNameExactly(name: string, next: Option<string>, i: nat)
    requires i <= |name| && '=' !in name[..i]
    ensures AfterName(name, next, i) ==
      if '=' in name then Attached(name[|Stem(name)| + 1..]) else if next.Some? then Detached(next.value) else NoArg
    decreases |name| - i
  {
    if i < |name| && name[i] != '=' {
      assert name[..i + 1] == name[..i] + [name[i]];
      AfterNameExactly(name, next, i + 1);
    } else {
      StemIs(name, i);
      if i == |name| { assert name[..i] == name; }
    }
  }

  // ----------------------------------------------------------------- what is handed on

  /** The entry an option stands for: its own, or the one for unknown options. */
  function EntryOf(e: Env, idx: nat): (d: nat)
    requires idx <= |e.usage|
    ensures d <= |e.usage|
  {
    if idx < |e.usage| then idx else FindDummy(e.usage, 0)
  }

  /** An option without an entry is skipped. Any other one ends the parse exactly when its check or the action refuses
      it; else it is handed on, last, and with an argument exactly when its check takes one. A detached argument is
      used up only then, and nothing more of a group is looked at. */
  lemma ActedExactly(e: Env, idx: nat, name: string, arg: Arg, log: seq<Opt>)
    requires idx <= |e.usage|
    ensures var d, a := EntryOf(e, idx), ActOn(e, idx, name, arg, log);
      if d == |e.usage| then a == Go(log, false, true)
      else
        var status := e.check(d, name, TextOf(arg));
        var o := Opt(d, name, if status == ArgOk then TextOf(arg) else None);
        && (a.Stop? <==> status == ArgIllegal || !e.accept(log, o))
        && (a.Go? ==>
             && a.log == log + [o] && (a.more <==> status != ArgOk)
             && (a.detached <==> status == ArgOk && arg.Detached?))
  {}

  /** A group of short options: each is acted on with what lies behind it, up to the first that takes an argument or
      is refused, which is the last; then the others were handed on in their order. */
  ghost predicate Flags(e: Env, word: string, p: nat, q: nat, next: Option<string>, log: seq<Opt>, log': seq<Opt>)
    requires p <= q <= |word|
    decreases q - p
  {
    if p == q then log' == log
    else
      var a := ActOn(e, FindShort(e.usage, word[p], 0), word[p..], ShortArg(word, p, next), log);
      a.Go? && a.more && Flags(e, word, p + 1, q, next, a.log, log')
  }

  /** The rest of the group, or the next argument for the last of it. */
  function ShortArg(word: string, p: nat, next: Option<string>): Arg
    requires p < |word|
  {
    if p < |word| - 1 then Attached(word[p + 1..]) else if next.Some? then Detached(next.value) else NoArg
  }

  lemma {:induction false} ShortsExactly(e: Env, word: string, p: nat, next: Option<string>, log: seq<Opt>)
      returns (q: nat, l: seq<Opt>)
    requires p <= |word|
    ensures p <= q <= |word| && Flags(e, word, p, q, next, log, l)
    ensures var r := ParseShorts(e, word, p, next, log);
      if q == |word| then r == Parsed(l, 1)
      else
        var a := ActOn(e, FindShort(e.usage, word[q], 0), word[q..], ShortArg(word, q, next), l);
        if a.Stop? then r == Failed else !a.more && r == Parsed(a.log, if a.detached then 2 else 1)
    decreases |word| - p
  {
    hide ActOn, FindShort;
    if p == |word| {
      q, l := p, log;
    } else {
      var a := ActOn(e, FindShort(e.usage, word[p], 0), word[p..], ShortArg(word, p, next), log);
      if a.Go? && a.more {
        q, l := ShortsExactly(e, word, p + 1, next, a.log);
      } else {
        q, l := p, log;
      }
    }
  }

  /** Two minuses begin a long option; one does when the parser allows it and some entry is meant, and else it begins
      a group of short ones. A long option uses up a second argument exactly when it takes a detached one. */
  lemma OptionExactly(e: Env, word: string, next: Option<string>, log: seq<Opt>)
    requires !IsNonOption(word)
    ensures var long := word[1] == '-' || (e.singleMinusLongopt && FindLong(e, word[1..]) < |e.usage|);
      var name := if word[1] == '-' then word[2..] else word[1..];
      var arg := if '=' in name then Attached(name[|Stem(name)| + 1..])
                 else if next.Some? then Detached(next.value) else NoArg;
      ParseOption(e, word, next, log) ==
        if !long then ParseShorts(e, word, 1, next, log)
        else match ActOn(e, FindLong(e, name), word, arg, log)
          case Stop => Failed
          case Go(l, detached, _) => Parsed(l, if detached then 2 else 1)
  {
    hide ActOn, FindLong, AfterName, Stem;
    AfterNameExactly(if word[1] == '-' then word[2..] else word[1..], next, 0);
  }

  // ---------------------------------------------------------------- all arguments

  /** The scan before an argument, when what comes later is scanned as given. */
  predicate GoesOn(s: Scan, later: Scan, taken: nat, used: bool) {
    if later.Refused? then s.Refused?
    else
      && s.Scanned? && s.log == later.log && |s.marks| >= taken && s.marks[taken..] == later.marks
      && forall k :: 0 <= k < taken ==> s.marks[k] == used
  }

  /** In gnu mode a non-option is passed over; otherwise it ends the scan, as the terminator does in both. Any other
      argument is parsed as an option with the one directly behind it, if any, and the scan goes on behind what that
      took, with the options handed on so far. */
  lemma ScanExactly(e: Env, args: seq<string>, log: seq<Opt>)
    requires args != []
    ensures var s := ScanAll(e, args, log);
      if IsNonOption(args[0]) && e.gnu then GoesOn(s, ScanAll(e, args[1..], log), 1, false)
      else if IsNonOption(args[0]) || args[0] == "--" then
        s.Scanned? && s.log == log && forall k :: 0 <= k < |args| ==> (s.marks[k] <==> k == 0 && args[0] == "--")
      else match ParseOption(e, args[0], if |args| == 1 then None else Some(args[1]), log)
        case Failed => s.Refused?
        case Parsed(l, taken) => 0 < taken <= |args| && GoesOn(s, ScanAll(e, args[taken..], l), taken, true)
  {
    hide ParseOption, IsNonOption;
    if !IsNonOption(args[0]) && args[0] != "--" {
      OptionTakes(e, args[0], Next(args), log);
    }
    assert IsNonOption(args[0]) ==> args[0] != "--" by { TerminatorIsNone(); }
  }

  lemma TerminatorIsNone()
    ensures !IsNonOption("--")
  {}
}
