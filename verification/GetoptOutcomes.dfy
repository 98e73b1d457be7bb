/** What the reference reading of pocld/cmdline.c makes of each way to write an option, for every option
    table: attached, detached, missing and optional arguments of short options, clusters, `--name=value`,
    `--name value`, flags, abbreviations, operands and `--`. */
module GetoptOutcomes {
  import opened Options
  import opened Getopt

  // ---------------------------------------------------------------- short options

  /** The first place of c in optstring is between `pre` and `post`. */
  ghost predicate Listed(optstring: string, pre: string, c: char, post: string) {
    optstring == pre + [c] + post && c !in pre && c != ':'
  }

  predicate NoColon(post: string) { post == "" || post[0] != ':' }
  predicate OneColon(post: string) { post != "" && post[0] == ':' && (|post| == 1 || post[1] != ':') }
  predicate TwoColons(post: string) { |post| >= 2 && post[0] == ':' && post[1] == ':' }

  /** What follows a character in optstring says whether it takes an argument. */
  lemma Kinds(optstring: string, pre: string, c: char, post: string)
    requires Listed(optstring, pre, c, post)
    ensures NoColon(post) ==> KindOf(optstring, c) == Bare
    ensures OneColon(post) ==> KindOf(optstring, c) == Required
    ensures TwoColons(post) ==> KindOf(optstring, c) == Optional
  {
    FirstPlace(pre, c, post);
    CharBehind(pre, c, post, 0);
    CharBehind(pre, c, post, 1);
  }

  lemma FirstPlace(pre: string, c: char, post: string)
    requires c !in pre
    ensures IndexOf(pre + [c] + post, c) == |pre|
  {
    IndexOfBehind(pre, [c] + post, c);
    assert pre + [c] + post == pre + ([c] + post);
    assert IndexOf([c] + post, c) == 0;
  }

  lemma CharBehind(pre: string, c: char, post: string, k: nat)
    ensures CharAt(pre + [c] + post, |pre| + 1 + k) == CharAt(post, k)
  {
  }

  lemma UnknownKind(optstring: string, c: char)
    requires c !in optstring || c == ':'
    ensures KindOf(optstring, c) == Unknown
  {
  }

  /** An option element, and what follows it. */
  lemma ScanElement(cfg: Config, elem: string, rest: seq<string>, evs: seq<Event>, takes: bool)
    requires !NonOption(elem) && elem != "--" && Element(cfg, [elem] + rest) == (evs, takes)
    ensures var r, k := Scan(cfg, [elem] + rest), if takes && rest != [] then 1 else 0;
            && r.events == evs + Scan(cfg, rest[k..]).events
            && r.options == [elem] + rest[..k] + Scan(cfg, rest[k..]).options
            && r.operands == Scan(cfg, rest[k..]).operands
  {
    var args := [elem] + rest;
    var k := Width(takes, args);
    assert args[k..] == rest[k - 1..] && args[..k] == [elem] + rest[..k - 1];
  }

  /** The element `-text`, and what follows it. */
  lemma ShortElement(cfg: Config, text: string, rest: seq<string>)
    requires text != "" && text[0] != '-'
    ensures var args := ["-" + text] + rest;
            var (evs, takes) := Cluster(cfg.optstring, text, Second(args));
            var k := if takes && rest != [] then 1 else 0;
            && Scan(cfg, args).events == evs + Scan(cfg, rest[k..]).events
            && Scan(cfg, args).options == ["-" + text] + rest[..k] + Scan(cfg, rest[k..]).options
            && Scan(cfg, args).operands == Scan(cfg, rest[k..]).operands
  {
    var elem := "-" + text;
    assert elem[1] == text[0] && elem[1..] == text && |elem| >= 2;
    var (evs, takes) := Cluster(cfg.optstring, text, Second([elem] + rest));
    ScanElement(cfg, elem, rest, evs, takes);
  }

  /** `-c v`: an option that takes an argument has the next element for it, whatever that looks like. */
  lemma Detached(cfg: Config, pre: string, c: char, post: string, v: string, rest: seq<string>)
    requires Listed(cfg.optstring, pre, c, post) && OneColon(post) && c != '-'
    ensures var r, s := Scan(cfg, [['-', c], v] + rest), Scan(cfg, rest);
            && r.events == [Event(c as int, Some(v), None, None, None)] + s.events
            && r.options == [['-', c], v] + s.options && r.operands == s.operands
  {
    Kinds(cfg.optstring, pre, c, post);
    ShortElement(cfg, [c], [v] + rest);
    assert "-" + [c] == ['-', c] && [['-', c], v] + rest == [['-', c]] + ([v] + rest);
    assert [c][1..] == "" && ([v] + rest)[1..] == rest && ([v] + rest)[..1] == [v];
  }

  /** `-cv`: what follows in the same element is the argument, required or optional. */
  lemma Attached(cfg: Config, pre: string, c: char, post: string, v: string, rest: seq<string>)
    requires Listed(cfg.optstring, pre, c, post) && (OneColon(post) || TwoColons(post)) && c != '-' && v != ""
    ensures var r, s := Scan(cfg, [['-', c] + v] + rest), Scan(cfg, rest);
            && r.events == [Event(c as int, Some(v), None, None, None)] + s.events
            && r.options == [['-', c] + v] + s.options && r.operands == s.operands
  {
    Kinds(cfg.optstring, pre, c, post);
    ShortElement(cfg, [c] + v, rest);
    assert "-" + ([c] + v) == ['-', c] + v && ([c] + v)[1..] == v;
    assert rest[0..] == rest && rest[..0] == [];
  }

  /** `-c` as the last element: a required argument is missing. */
  lemma Missing(cfg: Config, pre: string, c: char, post: string)
    requires Listed(cfg.optstring, pre, c, post) && OneColon(post) && c != '-'
    ensures var code := if cfg.optstring[0] == ':' then ':' else '?';
            Scan(cfg, [['-', c]]) == Reading([Event(code as int, None, Some(c as int), None, None)], [['-', c]], [])
  {
    Kinds(cfg.optstring, pre, c, post);
    ShortElement(cfg, [c], []);
    assert "-" + [c] == ['-', c] && [c][1..] == "" && [['-', c]] + [] == [['-', c]];
  }

  /** `-c`, where an argument is optional: it has none, and takes none from the next element. */
  lemma OptionalAbsent(cfg: Config, pre: string, c: char, post: string, rest: seq<string>)
    requires Listed(cfg.optstring, pre, c, post) && TwoColons(post) && c != '-'
    ensures var r, s := Scan(cfg, [['-', c]] + rest), Scan(cfg, rest);
            && r.events == [Event(c as int, None, None, None, None)] + s.events
            && r.options == [['-', c]] + s.options && r.operands == s.operands
  {
    Kinds(cfg.optstring, pre, c, post);
    ShortElement(cfg, [c], rest);
    assert "-" + [c] == ['-', c] && [c][1..] == "" && rest[0..] == rest && rest[..0] == [];
  }

  /** A character of a cluster that takes no argument is reported, and the rest of the cluster is read as if
      it were not there. */
  lemma BareInCluster(optstring: string, pre: string, c: char, post: string, tail: string, next: Option<string>)
    requires Listed(optstring, pre, c, post) && NoColon(post)
    ensures var (evs, takes) := Cluster(optstring, tail, next);
            Cluster(optstring, [c] + tail, next) == ([Event(c as int, None, None, None, None)] + evs, takes)
  {
    Kinds(optstring, pre, c, post);
    assert ([c] + tail)[1..] == tail;
  }

  /** So is a character that is no option, as '?' with the character in optopt. */
  lemma UnknownInCluster(optstring: string, c: char, tail: string, next: Option<string>)
    requires c !in optstring || c == ':'
    ensures var (evs, takes) := Cluster(optstring, tail, next);
            Cluster(optstring, [c] + tail, next) ==
            ([Event('?' as int, None, Some(c as int), None, None)] + evs, takes)
  {
    UnknownKind(optstring, c);
    assert ([c] + tail)[1..] == tail;
  }

  /** `-c` for such a character alone. */
  lemma Alone(cfg: Config, c: char, rest: seq<string>)
    requires c != '-' && (KindOf(cfg.optstring, c) == Bare || KindOf(cfg.optstring, c) == Unknown)
    ensures var r, s := Scan(cfg, [['-', c]] + rest), Scan(cfg, rest);
            && r.events == Cluster(cfg.optstring, [c], None).0 + s.events && |r.events| == 1 + |s.events|
            && r.options == [['-', c]] + s.options && r.operands == s.operands
  {
    ShortElement(cfg, [c], rest);
    assert "-" + [c] == ['-', c] && [c][1..] == "" && rest[0..] == rest && rest[..0] == [];
  }

  // ---------------------------------------------------------------- long options

  /** All of an option but its name. */
  function Action(o: LongOption): (int, nat, int) { (o.hasArg, o.flag, o.val) }

  /** Which option a name stands for. An exact name wins, the first one if there are several. Otherwise the
      options that it abbreviates must all do the same, and it stands for the first of them. */
  lemma LookUpIs(name: string, opts: seq<LongOption>)
    ensures match LookUp(name, opts)
            case Absent => forall j :: 0 <= j < |opts| ==> !(name <= opts[j].name)
            case Ambiguous =>
              && (forall j :: 0 <= j < |opts| ==> opts[j].name != name)
              && exists i, j :: 0 <= i < j < |opts| && name <= opts[i].name && name <= opts[j].name
                                && Action(opts[i]) != Action(opts[j])
            case Found(i) =>
              && i < |opts|
              && if opts[i].name == name then forall j :: 0 <= j < i ==> opts[j].name != name
                 else && (forall j :: 0 <= j < |opts| ==> opts[j].name != name) && name <= opts[i].name
                      && (forall j :: 0 <= j < i ==> !(name <= opts[j].name))
                      && (forall j :: 0 <= j < |opts| && name <= opts[j].name ==> Action(opts[j]) == Action(opts[i]))
  {
    var e, p := ExactIndex(name, opts), PrefixIndex(name, opts);
    match LookUp(name, opts)
    case Absent =>
    case Ambiguous =>
      var j :| p < j < |opts| && Abbreviates(name, opts[j]) && !SameAction(opts[p], opts[j]);
      assert name <= opts[p].name && name <= opts[j].name;
    case Found(i) =>
      if e == |opts| {
        forall j | 0 <= j < |opts| && name <= opts[j].name ensures Action(opts[j]) == Action(opts[i]) {
          assert Abbreviates(name, opts[j]) && j >= p;
          assert j > p ==> SameAction(opts[p], opts[j]);
        }
      }
  }

  /** The element `--text`, and what follows it. */
  lemma LongElement(cfg: Config, text: string, rest: seq<string>, ev: Event, takes: bool)
    requires text != "" && LongEvent(cfg, text, Second(["--" + text] + rest)) == (ev, takes)
    ensures var r, k := Scan(cfg, ["--" + text] + rest), if takes && rest != [] then 1 else 0;
            && r.events == [ev] + Scan(cfg, rest[k..]).events
            && r.options == ["--" + text] + rest[..k] + Scan(cfg, rest[k..]).options
            && r.operands == Scan(cfg, rest[k..]).operands
  {
    var elem := "--" + text;
    assert elem[2..] == text && elem != "--" && elem[0] == '-' && elem[1] == '-';
    ScanElement(cfg, elem, rest, [ev], takes);
  }

  /** The event of option i: its value is returned, or written to its flag variable and 0 returned. */
  function Chosen(opts: seq<LongOption>, i: nat, optarg: Option<string>): Event
    requires i < |opts|
  {
    if opts[i].flag == 0 then Event(opts[i].val, optarg, None, Some(i), None)
    else Event(0, optarg, None, Some(i), Some((opts[i].flag, opts[i].val)))
  }

  /** `--name=v`: the argument is v, even if empty; an option without argument reports '?' instead. */
  lemma NameValue(cfg: Config, name: string, i: nat, v: string, rest: seq<string>)
    requires '=' !in name && LookUp(name, cfg.longopts) == Found(i) && i < |cfg.longopts|
    ensures var r, s := Scan(cfg, ["--" + name + "=" + v] + rest), Scan(cfg, rest);
            var o := cfg.longopts[i];
            && r.events == [if o.hasArg == NO_ARGUMENT then Event('?' as int, None, Some(o.val), None, None)
                            else Chosen(cfg.longopts, i, Some(v))] + s.events
            && r.options == ["--" + name + "=" + v] + s.options && r.operands == s.operands
  {
    var text, o := name + ("=" + v), cfg.longopts[i];
    NameEnds(name, "=" + v);
    assert text[|name| + 1..] == v;
    var ev := if o.hasArg == NO_ARGUMENT then Event('?' as int, None, Some(o.val), None, None)
              else Chosen(cfg.longopts, i, Some(v));
    FoundLong(cfg, name, "=" + v, i, Second(["--" + text] + rest));
    LongElement(cfg, text, rest, ev, false);
    assert "--" + text == "--" + name + "=" + v && rest[0..] == rest && rest[..0] == [];
  }

  lemma FoundLong(cfg: Config, name: string, more: string, i: nat, next: Option<string>)
    requires '=' !in name && (more == "" || more[0] == '=')
    requires LookUp(name, cfg.longopts) == Found(i) && i < |cfg.longopts|
    ensures LongEvent(cfg, name + more, next) == FoundEvent(cfg, i, name + more, |name|, next)
  {
    NameEnds(name, more);
  }

  lemma NameEnds(name: string, more: string)
    requires '=' !in name && (more == "" || more[0] == '=')
    ensures IndexOf(name + more, '=') == |name| && (name + more)[..|name|] == name
  {
    IndexOfBehind(name, more, '=');
  }

  /** `--name v`, for an option that takes an argument: it is v. */
  lemma NameThenValue(cfg: Config, name: string, i: nat, v: string, rest: seq<string>)
    requires name != "" && '=' !in name && LookUp(name, cfg.longopts) == Found(i) && i < |cfg.longopts|
    requires cfg.longopts[i].hasArg == REQUIRED_ARGUMENT
    ensures var r, s := Scan(cfg, ["--" + name, v] + rest), Scan(cfg, rest);
            && r.events == [Chosen(cfg.longopts, i, Some(v))] + s.events
            && r.options == ["--" + name, v] + s.options && r.operands == s.operands
  {
    var args := ["--" + name] + ([v] + rest);
    assert name + "" == name;
    FoundLong(cfg, name, "", i, Second(args));
    LongElement(cfg, name, [v] + rest, Chosen(cfg.longopts, i, Some(v)), true);
    assert ["--" + name, v] + rest == args;
    assert ([v] + rest)[1..] == rest && ([v] + rest)[..1] == [v];
  }

  /** `--name` as the last element, for such an option: the argument is missing. */
  lemma NameMissing(cfg: Config, name: string, i: nat)
    requires name != "" && '=' !in name && LookUp(name, cfg.longopts) == Found(i) && i < |cfg.longopts|
    requires cfg.longopts[i].hasArg == REQUIRED_ARGUMENT
    ensures var code := if cfg.optstring != "" && cfg.optstring[0] == ':' then ':' else '?';
            Scan(cfg, ["--" + name]).events == [Event(code as int, None, Some(cfg.longopts[i].val), None, None)]
  {
    assert name + "" == name && ["--" + name] + [] == ["--" + name];
    FoundLong(cfg, name, "", i, None);
    var code := if cfg.optstring != "" && cfg.optstring[0] == ':' then ':' else '?';
    LongElement(cfg, name, [], Event(code as int, None, Some(cfg.longopts[i].val), None, None), false);
  }

  /** `--name`, for an option that needs no argument: it has none, and takes none from the next element. */
  lemma NameAlone(cfg: Config, name: string, i: nat, rest: seq<string>)
    requires name != "" && '=' !in name && LookUp(name, cfg.longopts) == Found(i) && i < |cfg.longopts|
    requires cfg.longopts[i].hasArg != REQUIRED_ARGUMENT
    ensures var r, s := Scan(cfg, ["--" + name] + rest), Scan(cfg, rest);
            && r.events == [Chosen(cfg.longopts, i, None)] + s.events
            && r.options == ["--" + name] + s.options && r.operands == s.operands
  {
    assert name + "" == name;
    FoundLong(cfg, name, "", i, Second(["--" + name] + rest));
    LongElement(cfg, name, rest, Chosen(cfg.longopts, i, None), false);
    assert rest[0..] == rest && rest[..0] == [];
  }

  /** A name that stands for no option, or for several, is reported as '?'; an argument behind `=` is dropped. */
  lemma NoSuchName(cfg: Config, name: string, more: string, rest: seq<string>)
    requires '=' !in name && (more == "" || more[0] == '=') && name + more != "" && !LookUp(name, cfg.longopts).Found?
    ensures var r, s := Scan(cfg, ["--" + (name + more)] + rest), Scan(cfg, rest);
            && r.events == [Event('?' as int, None, Some(0), None, None)] + s.events
            && r.options == ["--" + (name + more)] + s.options && r.operands == s.operands
  {
    NameEnds(name, more);
    LongElement(cfg, name + more, rest, Event('?' as int, None, Some(0), None, None), false);
    assert rest[0..] == rest && rest[..0] == [];
  }

  // ---------------------------------------------------------------- operands

  /** What does not begin with a dash, and a dash alone, is an operand. */
  lemma Operand(cfg: Config, v: string, rest: seq<string>)
    requires v == "" || v[0] != '-' || v == "-"
    ensures var r, s := Scan(cfg, [v] + rest), Scan(cfg, rest);
            r.events == s.events && r.options == s.options && r.operands == [v] + s.operands
  {
    assert ([v] + rest)[1..] == rest;
  }

  /** `--` ends the options. */
  lemma Terminator(cfg: Config, rest: seq<string>)
    ensures Scan(cfg, ["--"] + rest) == Reading([], ["--"], rest)
  {
    assert (["--"] + rest)[1..] == rest;
  }
}
