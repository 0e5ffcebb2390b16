// The parser of fork programs in cpu_api/generator.py, from tokens to actions. Splitting the text into tokens is not
// part of this model.
module ForkParser {
  datatype Action = Fork(name: string, sleep: string) | Exit | Wait

  // A word of the program text: a keyword, a brace, two arguments around the only comma of the word, or anything else.
  datatype Token = ForkWord | WaitWord | Open | Close | Args(name: string, sleep: string) | Other(word: string)

  datatype Result = Parsed(actions: seq<Action>) | BadProgram | IndexError

  // ----- Programs -----

  // What a process does, in order: forks, each with the program of the new process, and waits.
  datatype Item = DoFork(name: string, sleep: string, body: seq<Item>) | DoWait

  function Print(items: seq<Item>): seq<Token> {
    if items == [] then [] else Print(items[..|items| - 1]) + PrintItem(items[|items| - 1])
  }

  function PrintItem(item: Item): seq<Token> {
    match item
    case DoWait => [WaitWord]
    case DoFork(name, sleep, body) => [ForkWord, Args(name, sleep), Open] + Print(body) + [Close]
  }

  function Flatten(items: seq<Item>): seq<Action> {
    if items == [] then [] else Flatten(items[..|items| - 1]) + FlattenItem(items[|items| - 1])
  }

  function FlattenItem(item: Item): seq<Action> {
    match item
    case DoWait => [Wait]
    case DoFork(name, sleep, body) => [Fork(name, sleep)] + Flatten(body) + [Exit]
  }

  // Forks without a wait, at this level only.
  function Owed(items: seq<Item>): int {
    if items == [] then 0 else Owed(items[..|items| - 1]) + (if items[|items| - 1].DoFork? then 1 else -1)
  }

  // Every process has as many waits as forks.
  predicate Balanced(items: seq<Item>)
    decreases items, 1
  {
    Owed(items) == 0 && BodiesBalanced(items)
  }

  predicate BodiesBalanced(items: seq<Item>)
    decreases items, 0
  {
    items == [] || (BodiesBalanced(items[..|items| - 1]) && ItemBalanced(items[|items| - 1]))
  }

  predicate ItemBalanced(item: Item)
    decreases item, 2
  {
    match item
    case DoWait => true
    case DoFork(name, sleep, body) => Balanced(body)
  }

  // ----- What the parser does with the rest of the tokens -----

  // The counts of waits due, outermost process first, and the actions so far.
  function ParseFrom(tokens: seq<Token>, due: seq<int>, actions: seq<Action>): Result
    requires due != []
    decreases |tokens|
  {
    var level := |due| - 1;
    if tokens == [] then
      if due[0] != 0 || level != 0 then BadProgram else Parsed(actions)
    else match tokens[0]
      case ForkWord =>
        if |tokens| < 2 || !tokens[1].Args? then BadProgram
        else if |tokens| < 3 then IndexError
        else if !tokens[2].Open? then BadProgram
        else
          var action := Fork(tokens[1].name, tokens[1].sleep);
          ParseFrom(tokens[3..], due[level := due[level] + 1] + [0], actions + [action])
      case Close =>
        if level == 0 || due[level] != 0 then BadProgram else ParseFrom(tokens[1..], due[..level], actions + [Exit])
      case WaitWord => ParseFrom(tokens[1..], due[level := due[level] - 1], actions + [Wait])
      case _ => BadProgram
  }

  // ----- Whatever is printed is parsed -----

  // The parser gets past the printed form of any items whose bodies are balanced.
  lemma {:induction false} ParsesItems(items: seq<Item>, rest: seq<Token>, due: seq<int>, actions: seq<Action>)
    requires due != [] && BodiesBalanced(items)
    ensures var level := |due| - 1;
      ParseFrom(Print(items) + rest, due, actions) ==
        ParseFrom(rest, due[level := due[level] + Owed(items)], actions + Flatten(items))
    decreases items
  {
    var level := |due| - 1;
    if items == [] {
      assert Print(items) + rest == rest && actions + Flatten(items) == actions;
      assert due[level := due[level] + 0] == due;
    } else {
      var init, last := items[..|items| - 1], items[|items| - 1];
      assert Print(items) + rest == Print(init) + (PrintItem(last) + rest);
      ParsesItems(init, PrintItem(last) + rest, due, actions);
      var due' := due[level := due[level] + Owed(init)];
      ParsesItem(last, rest, due', actions + Flatten(init));
      assert actions + Flatten(items) == actions + Flatten(init) + FlattenItem(last);
      assert due'[level := due'[level] + (if last.DoFork? then 1 else -1)] == due[level := due[level] + Owed(items)];
    }
  }

  lemma {:induction false} ParsesItem(item: Item, rest: seq<Token>, due: seq<int>, actions: seq<Action>)
    requires due != [] && ItemBalanced(item)
    ensures var level := |due| - 1;
      ParseFrom(PrintItem(item) + rest, due, actions) ==
      ParseFrom(rest, due[level := due[level] + (if item.DoFork? then 1 else -1)], actions + FlattenItem(item))
    decreases item
  {
    var level := |due| - 1;
    match item
    case DoWait =>
      assert (PrintItem(item) + rest)[1..] == rest;
    case DoFork(name, sleep, body) =>
      var tokens := PrintItem(item) + rest;
      var due1 := due[level := due[level] + 1] + [0];
      var actions1 := actions + [Fork(name, sleep)];
      assert tokens[3..] == Print(body) + ([Close] + rest);
      assert tokens[0] == ForkWord && tokens[1] == Args(name, sleep) && tokens[2] == Open;
      ParsesItems(body, [Close] + rest, due1, actions1);
      assert due1[level + 1 := due1[level + 1] + Owed(body)] == due1;
      assert ([Close] + rest)[1..] == rest && due1[..level + 1] == due[level := due[level] + 1];
      assert actions1 + Flatten(body) + [Exit] == actions + FlattenItem(item);
  }

  // Round trip: a balanced program is read back as its actions.
  lemma RoundTrip(items: seq<Item>)
    requires Balanced(items)
    ensures ParseFrom(Print(items), [0], []) == Parsed(Flatten(items))
  {
    ParsesItems(items, [], [0], []);
    assert Print(items) + [] == Print(items) && [] + Flatten(items) == Flatten(items);
  }

  // ----- And nothing else is -----

  // A process whose program is being read: its items so far, and the arguments of the fork being read.
  datatype Frame = Frame(items: seq<Item>, name: string, sleep: string)

  // The tokens read when the processes in frames have forks being read and the innermost has items.
  function Printed(frames: seq<Frame>, items: seq<Item>): seq<Token>
    decreases |frames|
  {
    if frames == [] then Print(items)
    else
      var f := frames[|frames| - 1];
      Printed(frames[..|frames| - 1], f.items) + [ForkWord, Args(f.name, f.sleep), Open] + Print(items)
  }

  function Flattened(frames: seq<Frame>, items: seq<Item>): seq<Action>
    decreases |frames|
  {
    if frames == [] then Flatten(items)
    else
      var f := frames[|frames| - 1];
      Flattened(frames[..|frames| - 1], f.items) + [Fork(f.name, f.sleep)] + Flatten(items)
  }

  // The parser's counts are what the frames owe.
  predicate Reading(frames: seq<Frame>, items: seq<Item>, due: seq<int>) {
    && |due| == |frames| + 1 && due[|frames|] == Owed(items) && BodiesBalanced(items)
    && forall k :: 0 <= k < |frames| ==> due[k] == Owed(frames[k].items) + 1 && BodiesBalanced(frames[k].items)
  }

  // One more item.
  lemma PrintedNext(frames: seq<Frame>, items: seq<Item>, item: Item)
    ensures Printed(frames, items + [item]) == Printed(frames, items) + PrintItem(item)
    ensures Flattened(frames, items + [item]) == Flattened(frames, items) + FlattenItem(item)
    ensures Owed(items + [item]) == Owed(items) + (if item.DoFork? then 1 else -1)
    ensures BodiesBalanced(items + [item]) <==> BodiesBalanced(items) && ItemBalanced(item)
  {
    assert (items + [item])[..|items|] == items;
  }

  lemma PrintedFork(frames: seq<Frame>, items: seq<Item>, name: string, sleep: string)
    ensures Printed(frames + [Frame(items, name, sleep)], []) ==
      Printed(frames, items) + [ForkWord, Args(name, sleep), Open]
    ensures Flattened(frames + [Frame(items, name, sleep)], []) == Flattened(frames, items) + [Fork(name, sleep)]
  {
    assert (frames + [Frame(items, name, sleep)])[..|frames|] == frames;
  }

  lemma PrintedClose(frames: seq<Frame>, items: seq<Item>)
    requires frames != []
    ensures var f, outer := frames[|frames| - 1], frames[..|frames| - 1];
      && Printed(frames, items) + [Close] == Printed(outer, f.items + [DoFork(f.name, f.sleep, items)])
      && Flattened(frames, items) + [Exit] == Flattened(outer, f.items + [DoFork(f.name, f.sleep, items)])
  {
    var f, outer := frames[|frames| - 1], frames[..|frames| - 1];
    var item := DoFork(f.name, f.sleep, items);
    PrintedNext(outer, f.items, item);
    Regroup(Printed(outer, f.items), [ForkWord, Args(f.name, f.sleep), Open], Print(items), [Close]);
    Regroup(Flattened(outer, f.items), [Fork(f.name, f.sleep)], Flatten(items), [Exit]);
  }

  lemma Regroup<T>(a: seq<T>, b: seq<T>, c: seq<T>, d: seq<T>)
    ensures a + b + c + d == a + (b + c + d)
  {
  }

  // Moving tokens from what is left to what has been read.
  lemma Moved(read: seq<Token>, read': seq<Token>, tokens: seq<Token>, n: nat, p: seq<Item>)
    requires n <= |tokens| && read' == read + tokens[..n] && read' + tokens[n..] == Print(p)
    ensures read + tokens == Print(p)
  {
    assert tokens == tokens[..n] + tokens[n..];
  }

  // If the parser accepts, the tokens are the printed form of a balanced program.
  lemma {:induction false} AcceptsPrinted(
      frames: seq<Frame>, items: seq<Item>, tokens: seq<Token>, due: seq<int>)
    returns (p: seq<Item>)
    requires Reading(frames, items, due)
    requires ParseFrom(tokens, due, Flattened(frames, items)).Parsed?
    ensures Balanced(p) && Printed(frames, items) + tokens == Print(p)
    ensures ParseFrom(tokens, due, Flattened(frames, items)) == Parsed(Flatten(p))
    decreases |tokens|, 1
  {
    if tokens == [] {
      p := items;
      assert Printed(frames, items) + [] == Printed(frames, items);
    } else if tokens[0].ForkWord? {
      p := AcceptsFork(frames, items, tokens, due);
    } else if tokens[0].Close? {
      p := AcceptsClose(frames, items, tokens, due);
    } else {
      p := AcceptsWait(frames, items, tokens, due);
    }
  }

  lemma {:induction false} AcceptsFork(
      frames: seq<Frame>, items: seq<Item>, tokens: seq<Token>, due: seq<int>)
    returns (p: seq<Item>)
    requires Reading(frames, items, due) && tokens != [] && tokens[0].ForkWord?
    requires ParseFrom(tokens, due, Flattened(frames, items)).Parsed?
    ensures Balanced(p) && Printed(frames, items) + tokens == Print(p)
    ensures ParseFrom(tokens, due, Flattened(frames, items)) == Parsed(Flatten(p))
    decreases |tokens|, 0
  {
    var level := |due| - 1;
    var f := Frame(items, tokens[1].name, tokens[1].sleep);
    var due' := due[level := due[level] + 1] + [0];
    PrintedFork(frames, items, f.name, f.sleep);
    assert Reading(frames + [f], [], due');
    p := AcceptsPrinted(frames + [f], [], tokens[3..], due');
    assert tokens[..3] == [ForkWord, Args(f.name, f.sleep), Open];
    Moved(Printed(frames, items), Printed(frames + [f], []), tokens, 3, p);
  }

  lemma {:induction false} AcceptsClose(
      frames: seq<Frame>, items: seq<Item>, tokens: seq<Token>, due: seq<int>)
    returns (p: seq<Item>)
    requires Reading(frames, items, due) && tokens != [] && tokens[0].Close?
    requires ParseFrom(tokens, due, Flattened(frames, items)).Parsed?
    ensures Balanced(p) && Printed(frames, items) + tokens == Print(p)
    ensures ParseFrom(tokens, due, Flattened(frames, items)) == Parsed(Flatten(p))
    decreases |tokens|, 0
  {
    var level := |due| - 1;
    var f, outer := frames[|frames| - 1], frames[..|frames| - 1];
    var items' := f.items + [DoFork(f.name, f.sleep, items)];
    PrintedClose(frames, items);
    PrintedNext(outer, f.items, DoFork(f.name, f.sleep, items));
    assert Reading(outer, items', due[..level]);
    p := AcceptsPrinted(outer, items', tokens[1..], due[..level]);
    assert tokens[..1] == [Close];
    Moved(Printed(frames, items), Printed(outer, items'), tokens, 1, p);
  }

  lemma {:induction false} AcceptsWait(
      frames: seq<Frame>, items: seq<Item>, tokens: seq<Token>, due: seq<int>)
    returns (p: seq<Item>)
    requires Reading(frames, items, due) && tokens != [] && !tokens[0].ForkWord? && !tokens[0].Close?
    requires ParseFrom(tokens, due, Flattened(frames, items)).Parsed?
    ensures Balanced(p) && Printed(frames, items) + tokens == Print(p)
    ensures ParseFrom(tokens, due, Flattened(frames, items)) == Parsed(Flatten(p))
    decreases |tokens|, 0
  {
    var level := |due| - 1;
    PrintedNext(frames, items, DoWait);
    var due' := due[level := due[level] - 1];
    assert Reading(frames, items + [DoWait], due');
    p := AcceptsPrinted(frames, items + [DoWait], tokens[1..], due');
    assert tokens[..1] == [WaitWord];
    Moved(Printed(frames, items), Printed(frames, items + [DoWait]), tokens, 1, p);
  }

  // ----- The parser -----

  method Parse(tokens: seq<Token>) returns (r: Result)
    ensures r == ParseFrom(tokens, [0], [])
    ensures r.Parsed? <==> exists p :: Balanced(p) && tokens == Print(p)
    ensures forall p :: Balanced(p) && tokens == Print(p) ==> r == Parsed(Flatten(p))
  {
    forall p | Balanced(p) && tokens == Print(p) ensures ParseFrom(tokens, [0], []) == Parsed(Flatten(p)) {
      RoundTrip(p);
    }
    if ParseFrom(tokens, [0], []).Parsed? {
      var p := AcceptsPrinted([], [], tokens, [0]);
      assert Balanced(p) && tokens == Print(p);
    }
    r := ParseTokens(tokens);
  }

  // The counts of the parser: one entry for each level up to fork_level.
  ghost predicate Counts(waitCount: map<int, int>, forkLevel: int, due: seq<int>) {
    |due| == forkLevel + 1 && forall k :: 0 <= k <= forkLevel ==> k in waitCount && waitCount[k] == due[k]
  }

  // The loop of parse.
  method ParseTokens(tokens: seq<Token>) returns (r: Result)
    ensures r == ParseFrom(tokens, [0], [])
  {
    var actionList: seq<Action> := [];
    var curr, braceCount, forkLevel := 0, 0, 0;
    var waitCount: map<int, int> := map[0 := 0];
    ghost var due := [0];
    while curr < |tokens|
      invariant 0 <= curr <= |tokens| && forkLevel >= 0 && braceCount == forkLevel && Counts(waitCount, forkLevel, due)
      invariant ParseFrom(tokens[curr..], due, actionList) == ParseFrom(tokens, [0], [])
    {
      ghost var rest := tokens[curr..];
      match tokens[curr] {
      case ForkWord =>
        waitCount := waitCount[forkLevel := waitCount[forkLevel] + 1];
        forkLevel := forkLevel + 1;
        waitCount := waitCount[forkLevel := 0];
        if |tokens| < curr + 2 {
          return BadProgram;
        }
        var args := tokens[curr + 1];
        if !args.Args? {
          return BadProgram;
        }
        if curr + 2 >= |tokens| {
          return IndexError;
        }
        if !tokens[curr + 2].Open? {
          return BadProgram;
        }
        actionList := actionList + [Fork(args.name, args.sleep)];
        due := due[|due| - 1 := due[|due| - 1] + 1] + [0];
        assert rest[3..] == tokens[curr + 3..];
        curr := curr + 2;
        braceCount := braceCount + 1;
      case Close =>
        if forkLevel == 0 {
          return BadProgram;
        }
        actionList := actionList + [Exit];
        if waitCount[forkLevel] != 0 {
          return BadProgram;
        }
        braceCount := braceCount - 1;
        forkLevel := forkLevel - 1;
        due := due[..|due| - 1];
        assert rest[1..] == tokens[curr + 1..];
      case WaitWord =>
        waitCount := waitCount[forkLevel := waitCount[forkLevel] - 1];
        actionList := actionList + [Wait];
        due := due[|due| - 1 := due[|due| - 1] - 1];
        assert rest[1..] == tokens[curr + 1..];
      case _ =>
        return BadProgram;
      }
      curr := curr + 1;
    }
    if waitCount[0] != 0 {
      return BadProgram;
    }
    if braceCount != 0 {
      return BadProgram;
    }
    r := Parsed(actionList);
  }
}
