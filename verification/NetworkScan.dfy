/**
 The scans of `internal/app/control_plane_network.go`: they walk the argv by index, skipping the tokens
 that a flag consumes, and agree with the grammar of `NetworkArgs`.
 */
module NetworkScan {
  import opened NetworkArgs
  import opened Prelude
  import opened Text

  lemma HostsSnoc(lib: Library, front: seq<string>, last: string)
    ensures Hosts(lib, front + [last]) ==
      if lib.host(last) == "" || lib.host(last) in Hosts(lib, front) then Hosts(lib, front)
      else Hosts(lib, front) + [lib.host(last)]
  {
  }

  lemma ItemSnoc(lib: Library, front: seq<Item>, last: Item)
    ensures Destinations(lib, front + [last]) == Destinations(lib, front) + last.Destinations(lib)
    ensures FirstUnsafe(front + [last]) == if FirstUnsafe(front).Some? then FirstUnsafe(front) else last.UnsafeFlag()
  {
  }

  /** The list of hosts so far, with the set that the source keeps beside it. */
  ghost predicate Collects(lib: Library, candidates: seq<string>, out: seq<string>, seen: set<string>) {
    out == Hosts(lib, candidates) && forall h :: h in seen <==> h in out
  }

  method AddCandidate(lib: Library, ghost candidates: seq<string>, candidate: string, out: seq<string>, seen: set<string>)
    returns (out': seq<string>, seen': set<string>)
    requires Collects(lib, candidates, out, seen)
    ensures Collects(lib, candidates + [candidate], out', seen')
  {
    HostsSnoc(lib, candidates, candidate);
    var host := lib.host(candidate);
    if host == "" || host in seen {
      return out, seen;
    }
    return out + [host], seen + {host};
  }

  /** `addCandidate` for a destination that may be empty, which the source then leaves out. */
  method AddDestination(lib: Library, ghost candidates: seq<string>, destination: string, out: seq<string>, seen: set<string>)
    returns (out': seq<string>, seen': set<string>)
    requires lib.Lawful()
    requires Collects(lib, candidates, out, seen)
    ensures Collects(lib, candidates + [destination], out', seen')
  {
    HostsSnoc(lib, candidates, destination);
    out', seen' := out, seen;
    if destination != "" {
      out', seen' := AddCandidate(lib, candidates, destination, out, seen);
    }
  }

  method SplitLongFlagToken(part: string) returns (name: string, inlineValue: Option<string>)
    ensures part == if inlineValue.Some? then name + "=" + inlineValue.value else name
    ensures '=' !in name
  {
    match Cut(part, '=') {
      case Some((before, after)) => return before, Some(after);
      case None => return part, None;
    }
  }

  /** What a flag adds to the host list and to the unsafe flags. */
  function SettingOf(lib: Library, token: string, flag: Flag, rest: seq<string>): (item: Item)
    ensures item.Setting?
  {
    Setting(token, flag, if flag.TakesNext(lib, rest) then Some(rest[0]) else None)
  }

  predicate Reads(lib: Library, item: Item, destination: Option<string>, consumedNext: bool, unsafeFlag: string)
  {
    && item.Setting?
    && item.Destinations(lib) == (if destination.Some? then [destination.value] else [])
    && consumedNext == item.next.Some?
    && item.UnsafeFlag() == (if unsafeFlag == "" then None else Some(unsafeFlag))
  }

  /** The long-flag part of the loop body of `extractDirectClientDomains`. */
  method ConsumeLongFlagToken(lib: Library, spec: ArgSpec, part: string, args: seq<string>, index: nat)
    returns (destination: Option<string>, consumedNext: bool, unsafeFlag: string)
    requires index < |args| && HasPrefix(part, "--")
    ensures Reads(lib, SettingOf(lib, args[index], LongFlag(lib, spec, part), args[index + 1..]), destination, consumedNext, unsafeFlag)
  {
    destination, consumedNext, unsafeFlag := None, false, "";
    var name, inlineValue := SplitLongFlagToken(part);
    assert part[0] == '-';
    assert inlineValue.Some? ==> part[|name|] == '=';
    assert name != "";
    if inlineValue.Some? {
      assert part == name + ['='] + inlineValue.value;
      CutAt(name, '=', inlineValue.value);
    }
    assert index + 1 < |args| ==> args[index + 1..][0] == args[index + 1];
    if lib.lower(name) !in spec.longFlags {
      unsafeFlag := name;
      consumedNext := inlineValue.None? && index + 1 < |args| && !lib.LooksLikeFlag(args[index + 1]);
      return;
    }
    match spec.longFlags[lib.lower(name)] {
      case Destination =>
        if inlineValue.Some? {
          destination := inlineValue;
        } else if index + 1 < |args| {
          destination, consumedNext := Some(args[index + 1]), true;
        }
      case OpaqueOrOverrideValue =>
        unsafeFlag := name;
        consumedNext := inlineValue.None? && index + 1 < |args|;
      case TakesValue =>
        consumedNext := inlineValue.None? && index + 1 < |args|;
      case NoValue =>
      case Unknown =>
        consumedNext := inlineValue.None? && index + 1 < |args| && !lib.LooksLikeFlag(args[index + 1]);
    }
  }

  /** The empty destination stands for none, as in the source. */
  method ConsumeShortFlagToken(lib: Library, spec: ArgSpec, part: string, args: seq<string>, index: nat)
    returns (destination: string, consumedNext: bool, unsafeFlag: string)
    requires index < |args| && HasPrefix(part, "-")
    ensures match ShortFlag(lib, spec, part[1..])
            case None => destination == "" && !consumedNext && unsafeFlag == ""
            case Some(flag) =>
              var item := SettingOf(lib, args[index], flag, args[index + 1..]);
              Reads(lib, item, if item.Destinations(lib) == [] then None else Some(destination), consumedNext, unsafeFlag)
              && (item.Destinations(lib) == [] ==> destination == "")
  {
    if part == "-" {
      return "", false, "";
    }
    var cluster := part[1..];
    assert index + 1 < |args| ==> args[index + 1..][0] == args[index + 1];
    for i := 0 to |cluster|
      invariant ShortFlag(lib, spec, cluster[i..]) == ShortFlag(lib, spec, cluster)
    {
      var flag := cluster[i];
      assert cluster[i..][1..] == cluster[i + 1..];
      if flag !in spec.shortFlags {
        var flagName := "-" + lib.byteText(flag);
        if i + 1 < |cluster| {
          return "", false, flagName;
        }
        return "", index + 1 < |args| && !lib.LooksLikeFlag(args[index + 1]), flagName;
      }
      match spec.shortFlags[flag] {
        case Destination =>
          if i + 1 < |cluster| {
            return cluster[i + 1..], false, "";
          }
          if index + 1 < |args| {
            return args[index + 1], true, "";
          }
          return "", false, "";
        case OpaqueOrOverrideValue =>
          return "", i + 1 == |cluster| && index + 1 < |args|, "-" + lib.byteText(flag);
        case TakesValue =>
          return "", i + 1 == |cluster| && index + 1 < |args|, "";
        case NoValue =>
        case Unknown =>
      }
    }
    assert cluster[|cluster|..] == "";
    return "", false, "";
  }

  /** The items read so far, and what the loop has gathered from them. */
  ghost predicate Gathered(lib: Library, done: seq<Item>, out: seq<string>, seen: set<string>, unsafeArg: string) {
    && Collects(lib, Destinations(lib, done), out, seen)
    && FirstUnsafe(done) == (if unsafeArg == "" then None else Some(unsafeArg))
  }

  ghost predicate Reading(lib: Library, spec: ArgSpec, args: seq<string>, done: seq<Item>, i: nat) {
    i <= |args| && Items(lib, spec, args) == done + Items(lib, spec, args[i..])
  }

  /** An item other than the rest takes one or two tokens, and the reading goes on behind it. */
  lemma ItemThenRest(lib: Library, spec: ArgSpec, args: seq<string>)
    requires args != [] && !Items(lib, spec, args)[0].Rest?
    ensures var item := Items(lib, spec, args)[0];
            && |item.Tokens()| <= |args|
            && Items(lib, spec, args) == [item] + Items(lib, spec, args[|item.Tokens()|..])
  {
  }

  lemma NextItem(lib: Library, spec: ArgSpec, args: seq<string>, done: seq<Item>, i: nat, item: Item)
    requires Reading(lib, spec, args, done, i) && i < |args|
    requires Items(lib, spec, args[i..])[0] == item && !item.Rest?
    ensures i + |item.Tokens()| <= |args|
    ensures Reading(lib, spec, args, done + [item], i + |item.Tokens()|)
  {
    var n := |item.Tokens()|;
    ItemThenRest(lib, spec, args[i..]);
    assert args[i..][n..] == args[i + n..];
    Regrouped(done, item, Items(lib, spec, args[i + n..]));
  }

  lemma Regrouped(done: seq<Item>, item: Item, rest: seq<Item>)
    ensures done + ([item] + rest) == (done + [item]) + rest
  {
  }

  lemma FlagItem(lib: Library, spec: ArgSpec, args: seq<string>, i: nat, flag: Flag)
    requires i < |args| && HasPrefix(lib.trim(args[i]), "-") && lib.trim(args[i]) != "--"
    requires FlagOf(lib, spec, lib.trim(args[i])) == Some(flag)
    ensures Items(lib, spec, args[i..])[0] == SettingOf(lib, args[i], flag, args[i + 1..])
  {
  }

  /** After `--` every token is a candidate. */
  method AddOperands(lib: Library, ghost candidates: seq<string>, operands: seq<string>, out: seq<string>, seen: set<string>)
    returns (out': seq<string>)
    requires Collects(lib, candidates, out, seen)
    ensures out' == Hosts(lib, candidates + operands)
  {
    out' := out;
    var seen' := seen;
    assert candidates + operands[..0] == candidates;
    for i := 0 to |operands|
      invariant Collects(lib, candidates + operands[..i], out', seen')
    {
      assert candidates + operands[..i + 1] == candidates + operands[..i] + [operands[i]];
      out', seen' := AddCandidate(lib, candidates + operands[..i], operands[i], out', seen');
    }
    assert operands[..|operands|] == operands;
  }

  /** One flag token, long or short: its item in the grammar, taken apart. */
  method ReadFlagToken(lib: Library, spec: ArgSpec, args: seq<string>, i: nat)
    returns (destination: Option<string>, consumedNext: bool, unsafeFlag: string)
    requires i < |args| && HasPrefix(lib.trim(args[i]), "-") && lib.trim(args[i]) != "--"
    ensures var item := Items(lib, spec, args[i..])[0];
            && !item.Rest? && |item.Tokens()| == (if consumedNext then 2 else 1)
            && item.UnsafeFlag() == (if unsafeFlag == "" then None else Some(unsafeFlag))
            && NamesDestination(item.Destinations(lib), destination)
  {
    var part := lib.trim(args[i]);
    ghost var flag := FlagOf(lib, spec, part);
    if HasPrefix(part, "--") {
      destination, consumedNext, unsafeFlag := ConsumeLongFlagToken(lib, spec, part, args, i);
    } else {
      var short: string;
      short, consumedNext, unsafeFlag := ConsumeShortFlagToken(lib, spec, part, args, i);
      destination := if short == "" then None else Some(short);
    }
    if flag.Some? {
      FlagItem(lib, spec, args, i, flag.value);
    }
  }

  /** The destination of an item, if it has one; an empty one may be left out. */
  predicate NamesDestination(destinations: seq<string>, destination: Option<string>) {
    if destination.Some? then destinations == [destination.value] else destinations == [] || destinations == [""]
  }

  /** One flag token: its destination and its unsafe flag are recorded. */
  method RecordFlagToken(lib: Library, spec: ArgSpec, args: seq<string>, i: nat, ghost done: seq<Item>,
                         out: seq<string>, seen: set<string>, unsafeArg: string)
    returns (out': seq<string>, seen': set<string>, unsafeArg': string, consumedNext: bool)
    requires lib.Lawful() && i < |args| && HasPrefix(lib.trim(args[i]), "-") && lib.trim(args[i]) != "--"
    requires Gathered(lib, done, out, seen, unsafeArg)
    ensures var item := Items(lib, spec, args[i..])[0];
            && !item.Rest? && |item.Tokens()| == (if consumedNext then 2 else 1)
            && Gathered(lib, done + [item], out', seen', unsafeArg')
  {
    var destination, unsafeFlag;
    destination, consumedNext, unsafeFlag := ReadFlagToken(lib, spec, args, i);
    ghost var item := Items(lib, spec, args[i..])[0];
    ItemSnoc(lib, done, item);
    out', seen', unsafeArg' := out, seen, unsafeArg;
    if unsafeFlag != "" && unsafeArg == "" {
      unsafeArg' := unsafeFlag;
    }
    EmptyDestinations(lib, Destinations(lib, done), item.Destinations(lib));
    if destination.Some? {
      out', seen' := AddDestination(lib, Destinations(lib, done), destination.value, out, seen);
    }
  }

  lemma EmptyDestinations(lib: Library, candidates: seq<string>, more: seq<string>)
    requires lib.Lawful()
    ensures more == [] || more == [""] ==> Hosts(lib, candidates + more) == Hosts(lib, candidates)
  {
    if more == [] {
      assert candidates + more == candidates;
    } else if more == [""] {
      HostsSnoc(lib, candidates, "");
    }
  }

  /** One token that is no flag: blank, or a candidate itself. */
  method RecordPlainToken(lib: Library, spec: ArgSpec, args: seq<string>, i: nat, ghost done: seq<Item>,
                          out: seq<string>, seen: set<string>, unsafeArg: string)
    returns (out': seq<string>, seen': set<string>)
    requires i < |args| && !HasPrefix(lib.trim(args[i]), "-")
    requires Gathered(lib, done, out, seen, unsafeArg)
    ensures var item := Items(lib, spec, args[i..])[0];
            && !item.Rest? && |item.Tokens()| == 1
            && Gathered(lib, done + [item], out', seen', unsafeArg)
  {
    var part := lib.trim(args[i]);
    ghost var item := Items(lib, spec, args[i..])[0];
    ItemSnoc(lib, done, item);
    out', seen' := out, seen;
    if part == "" {
      assert Destinations(lib, done) + [] == Destinations(lib, done);
    } else {
      out', seen' := AddCandidate(lib, Destinations(lib, done), part, out, seen);
    }
  }

  lemma LastItem(lib: Library, spec: ArgSpec, args: seq<string>, done: seq<Item>, i: nat)
    requires Reading(lib, spec, args, done, i) && i < |args| && lib.trim(args[i]) == "--"
    ensures Items(lib, spec, args) == done + [Rest(args[i], args[i + 1..])]
    ensures Destinations(lib, Items(lib, spec, args)) == Destinations(lib, done) + args[i + 1..]
    ensures FirstUnsafe(Items(lib, spec, args)) == FirstUnsafe(done)
  {
  }

  lemma AllItems(lib: Library, spec: ArgSpec, args: seq<string>, done: seq<Item>)
    requires Reading(lib, spec, args, done, |args|)
    ensures Items(lib, spec, args) == done
  {
  }

  lemma NothingRead(lib: Library, spec: ArgSpec, args: seq<string>)
    ensures Reading(lib, spec, args, [], 0) && Gathered(lib, [], [], {}, "")
  {
    assert args[0..] == args;
  }

  /** The token at `i`, with the one behind it if that is its value: the loop body but for `--`. */
  method RecordToken(lib: Library, spec: ArgSpec, args: seq<string>, i: nat, ghost done: seq<Item>,
                     out: seq<string>, seen: set<string>, unsafeArg: string)
    returns (out': seq<string>, seen': set<string>, unsafeArg': string, consumedNext: bool, ghost done': seq<Item>)
    requires lib.Lawful() && i < |args| && lib.trim(args[i]) != "--"
    requires Reading(lib, spec, args, done, i) && Gathered(lib, done, out, seen, unsafeArg)
    ensures Reading(lib, spec, args, done', i + if consumedNext then 2 else 1) && Gathered(lib, done', out', seen', unsafeArg')
  {
    ghost var item := Items(lib, spec, args[i..])[0];
    consumedNext, unsafeArg' := false, unsafeArg;
    if HasPrefix(lib.trim(args[i]), "-") {
      out', seen', unsafeArg', consumedNext := RecordFlagToken(lib, spec, args, i, done, out, seen, unsafeArg);
    } else {
      out', seen' := RecordPlainToken(lib, spec, args, i, done, out, seen, unsafeArg);
    }
    NextItem(lib, spec, args, done, i, item);
    done' := done + [item];
  }

  /** The result: exactly the hosts the grammar finds, and the first unsafe flag or the empty string. */
  method ExtractDirectClientDomains(lib: Library, spec: ArgSpec, args: seq<string>)
    returns (out: seq<string>, unsafeArg: string)
    requires lib.Lawful()
    ensures out == Hosts(lib, Destinations(lib, Items(lib, spec, args)))
    ensures FirstUnsafe(Items(lib, spec, args)) == if unsafeArg == "" then None else Some(unsafeArg)
  {
    out, unsafeArg := [], "";
    var seen: set<string> := {};
    ghost var done: seq<Item> := [];
    NothingRead(lib, spec, args);
    var i := 0;
    while i < |args|
      invariant Reading(lib, spec, args, done, i)
      invariant Gathered(lib, done, out, seen, unsafeArg)
    {
      var part := lib.trim(args[i]);
      if part == "--" {
        LastItem(lib, spec, args, done, i);
        out := AddOperands(lib, Destinations(lib, done), args[i + 1..], out, seen);
        return;
      }
      var consumedNext;
      out, seen, unsafeArg, consumedNext, done := RecordToken(lib, spec, args, i, done, out, seen, unsafeArg);
      i := i + if consumedNext then 2 else 1;
    }
    AllItems(lib, spec, args, done);
  }
}
