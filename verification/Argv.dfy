/** The argument scanner of scripts/create-super-admin.ts. */
module Argv {
  import opened Basics

  /** A slot of the `args` record: a string, or `true` for an option without a value. */
  datatype Slot = Text(text: string) | True

  datatype Parsed = Parsed(
    email: Option<Slot>, name: Option<Slot>, googleId: Option<Slot>, promote: bool, dryRun: bool)

  predicate IsOption(token: string) {
    "--" <= token
  }

  /** The tokens an option may take as its value: truthy and not an option itself. */
  predicate IsValue(token: string) {
    token != "" && !IsOption(token)
  }

  // ---- The meaning of a command line, position by position ----

  /** What the option at position i is given: the next token if that is a value, `true` otherwise. */
  function SlotAt(argv: seq<string>, i: nat): Slot
    requires i < |argv|
  {
    if i + 1 < |argv| && IsValue(argv[i + 1]) then Text(argv[i + 1]) else True
  }

  predicate Occurs(argv: seq<string>, key: string, i: int) {
    2 <= i < |argv| && argv[i] == "--" + key
  }

  /** The slot of the last occurrence of `--key` before position n. */
  function LastSlot(argv: seq<string>, key: string, n: nat): Option<Slot>
    requires n <= |argv|
  {
    if n == 0 then None
    else if Occurs(argv, key, n - 1) then Some(SlotAt(argv, n - 1))
    else LastSlot(argv, key, n - 1)
  }

  function Meaning(argv: seq<string>): Parsed {
    var email := LastSlot(argv, "email", |argv|);
    var googleId := LastSlot(argv, "google-id", |argv|);
    Parsed(
      email,
      LastSlot(argv, "name", |argv|),
      if googleId.None? then email else googleId,
      LastSlot(argv, "promote", |argv|).Some?,
      false)
  }

  /** LastSlot is the slot of an occurrence that no later one follows, and None only when there is none. */
  lemma {:induction false} LastSlotIsLast(argv: seq<string>, key: string, n: nat)
    requires n <= |argv|
    ensures LastSlot(argv, key, n).None? <==> forall i | 0 <= i < n :: !Occurs(argv, key, i)
    ensures LastSlot(argv, key, n).Some? ==>
              exists i | 0 <= i < n :: Occurs(argv, key, i) && LastSlot(argv, key, n).value == SlotAt(argv, i)
                && forall j | i < j < n :: !Occurs(argv, key, j)
  {
    if n > 0 {
      LastSlotIsLast(argv, key, n - 1);
      if Occurs(argv, key, n - 1) {
      } else if LastSlot(argv, key, n).Some? {
        var i :| 0 <= i < n - 1 && Occurs(argv, key, i) && LastSlot(argv, key, n - 1).value == SlotAt(argv, i)
          && forall j | i < j < n - 1 :: !Occurs(argv, key, j);
        assert forall j | i < j < n :: !Occurs(argv, key, j);
      }
    }
  }

  // ---- The loop of parseArgs ----

  lemma OptionKey(token: string, key: string)
    requires IsOption(token)
    ensures token == "--" + key <==> token[2..] == key
  {
    assert token == token[..2] + token[2..];
    if token == "--" + key {
      assert token[2..] == key;
    }
  }

  function Lookup(args: map<string, Slot>, key: string): Option<Slot> {
    if key in args then Some(args[key]) else None
  }

  /** The record after the tokens before position i, for every key the scanner does not treat specially. */
  ghost predicate ScannedTo(argv: seq<string>, args: map<string, Slot>, i: nat)
    requires i <= |argv|
  {
    && (forall key | key != "promote" && key != "dryRun" && key != "dry-run" ::
          Lookup(args, key) == LastSlot(argv, key, i))
    && "dry-run" !in args
    && ("promote" in args <==> LastSlot(argv, "promote", i).Some?)
  }

  lemma AfterToken(argv: seq<string>, i: nat)
    requires i < |argv|
    ensures forall key ::
              LastSlot(argv, key, i + 1) == if Occurs(argv, key, i) then Some(SlotAt(argv, i)) else LastSlot(argv, key, i)
  {
  }

  lemma NothingScanned(argv: seq<string>)
    ensures ScannedTo(argv, map[], Min(2, |argv|))
  {
    forall key ensures LastSlot(argv, key, Min(2, |argv|)) == None {
      LastSlotIsLast(argv, key, Min(2, |argv|));
    }
  }

  /** A token that is no option changes nothing, whether it is skipped or consumed as a value. */
  lemma SkipPlain(argv: seq<string>, args: map<string, Slot>, i: nat)
    requires i < |argv| && ScannedTo(argv, args, i)
    requires i < 2 || !IsOption(argv[i])
    ensures ScannedTo(argv, args, i + 1)
  {
    AfterToken(argv, i);
  }

  lemma ScanOption(argv: seq<string>, args: map<string, Slot>, i: nat, slot: Slot)
    requires 2 <= i < |argv| && ScannedTo(argv, args, i)
    requires IsOption(argv[i]) && argv[i] != "--dry-run"
    requires slot == if argv[i] == "--promote" then True else SlotAt(argv, i)
    ensures ScannedTo(argv, args[argv[i][2..] := slot], i + 1)
  {
    AfterToken(argv, i);
    forall key ensures Occurs(argv, key, i) <==> argv[i][2..] == key {
      OptionKey(argv[i], key);
    }
    OptionKey(argv[i], "promote");
    OptionKey(argv[i], "dry-run");
  }

  lemma ScanDryRun(argv: seq<string>, args: map<string, Slot>, i: nat)
    requires 2 <= i < |argv| && ScannedTo(argv, args, i)
    requires argv[i] == "--dry-run"
    ensures ScannedTo(argv, args["dryRun" := True], i + 1)
  {
    AfterToken(argv, i);
    forall key ensures Occurs(argv, key, i) <==> key == "dry-run" {
      OptionKey(argv[i], key);
    }
  }

  ghost predicate LastAt(argv: seq<string>, token: string, i: int) {
    2 <= i < |argv| && argv[i] == token && forall j | i < j < |argv| :: argv[j] != token
  }

  /** What an option holds after the scan: nothing if its token does not occur from position 2 on, and otherwise what
      follows its last occurrence, if that is a non-empty token without two leading dashes, or a bare mark. */
  ghost predicate Holds(argv: seq<string>, token: string, slot: Option<Slot>) {
    && (slot.None? <==> forall i | 2 <= i < |argv| :: argv[i] != token)
    && (slot.Some? ==>
          exists i :: LastAt(argv, token, i)
            && slot.value == if i + 1 < |argv| && argv[i + 1] != "" && !("--" <= argv[i + 1]) then Text(argv[i + 1]) else True)
  }

  lemma LastSlotHolds(argv: seq<string>, key: string, token: string)
    requires token == "--" + key
    ensures Holds(argv, token, LastSlot(argv, key, |argv|))
  {
    LastSlotIsLast(argv, key, |argv|);
    if LastSlot(argv, key, |argv|).Some? {
      var i :| 0 <= i < |argv| && Occurs(argv, key, i) && LastSlot(argv, key, |argv|).value == SlotAt(argv, i)
        && forall j | i < j < |argv| :: !Occurs(argv, key, j);
      forall j | i < j < |argv| ensures argv[j] != token {
        assert !Occurs(argv, key, j);
      }
      assert LastAt(argv, token, i);
    } else {
      forall i | 2 <= i < |argv| ensures argv[i] != token {
        assert !Occurs(argv, key, i);
      }
    }
  }

  /** What the script reads off a command line. The Google id falls back to the e-mail, and the dry-run flag is false
      whatever the line says. */
  ghost predicate ScanPromise(argv: seq<string>, r: Parsed) {
    var given := exists i | 2 <= i < |argv| :: argv[i] == "--google-id";
    && Holds(argv, "--email", r.email)
    && Holds(argv, "--name", r.name)
    && (given ==> Holds(argv, "--google-id", r.googleId))
    && (!given ==> r.googleId == r.email)
    && (r.promote <==> exists i | 2 <= i < |argv| :: argv[i] == "--promote")
    && !r.dryRun
  }

  lemma MeaningKeepsPromise(argv: seq<string>)
    ensures ScanPromise(argv, Meaning(argv))
  {
    LastSlotHolds(argv, "email", "--email");
    LastSlotHolds(argv, "name", "--name");
    LastSlotHolds(argv, "google-id", "--google-id");
    LastSlotHolds(argv, "promote", "--promote");
  }

  method ParseArgs(argv: seq<string>) returns (r: Parsed)
    ensures r == Meaning(argv)
    ensures ScanPromise(argv, r)
  {
    var args: map<string, Slot> := map[];
    var i := 2;
    NothingScanned(argv);
    while i < |argv|
      invariant 2 <= i
      invariant ScannedTo(argv, args, Min(i, |argv|))
      invariant i <= |argv| || |argv| < 2
    {
      var arg := argv[i];
      if arg == "--promote" {
        ScanOption(argv, args, i, True);
        assert arg[2..] == "promote";
        args := args["promote" := True];
      } else if arg == "--dry-run" {
        ScanDryRun(argv, args, i);
        args := args["dryRun" := True];
      } else if IsOption(arg) {
        if i + 1 < |argv| && IsValue(argv[i + 1]) {
          ScanOption(argv, args, i, Text(argv[i + 1]));
          args := args[arg[2..] := Text(argv[i + 1])];
          i := i + 1;
          SkipPlain(argv, args, i);
        } else {
          ScanOption(argv, args, i, True);
          args := args[arg[2..] := True];
        }
      } else {
        SkipPlain(argv, args, i);
      }
      i := i + 1;
    }
    assert ScanPromise(argv, Meaning(argv)) by {
      MeaningKeepsPromise(argv);
    }
    var email := Lookup(args, "email");
    var googleId := Lookup(args, "google-id");
    r := Parsed(
      email,
      Lookup(args, "name"),
      if googleId.None? then email else googleId,
      "promote" in args,
      "dry-run" in args);
  }

  // ---- What the meaning promises ----

  /** The promotion flag is set exactly when the token occurs at a position from 2 on. */
  lemma PromoteIffOccurs(argv: seq<string>)
    ensures Meaning(argv).promote <==> exists i | 2 <= i < |argv| :: argv[i] == "--promote"
  {
    LastSlotIsLast(argv, "promote", |argv|);
    if i :| 2 <= i < |argv| && argv[i] == "--promote" {
      assert Occurs(argv, "promote", i);
    }
  }

  /** Whatever a key holds at any point of the scan, overwritten later or not, is the token right after an
      occurrence of the key: never one that starts with `--`, and never an empty one. */
  lemma OptionsAreNeverValues(argv: seq<string>, key: string, n: nat)
    requires n <= |argv|
    requires LastSlot(argv, key, n).Some? && LastSlot(argv, key, n).value.Text?
    ensures var text := LastSlot(argv, key, n).value.text;
            && text != "" && !("--" <= text)
            && exists i | 2 <= i < n :: argv[i] == "--" + key && i + 1 < |argv| && argv[i + 1] == text
  {
    LastSlotIsLast(argv, key, n);
    var i :| 0 <= i < n && Occurs(argv, key, i) && LastSlot(argv, key, n).value == SlotAt(argv, i);
    assert argv[i] == "--" + key && argv[i + 1] == LastSlot(argv, key, n).value.text;
  }

  lemma {:induction false} SameSlots(a: seq<string>, b: seq<string>, key: string, n: nat)
    requires n <= |a| && n <= |b|
    requires forall i | 0 <= i < n :: Occurs(a, key, i) == Occurs(b, key, i) && SlotAt(a, i) == SlotAt(b, i)
    ensures LastSlot(a, key, n) == LastSlot(b, key, n)
  {
    if n > 0 {
      SameSlots(a, b, key, n - 1);
    }
  }

  // ---- Rendering and parsing back ----

  datatype Item = Valued(key: string, value: string) | Promote

  predicate Renderable(item: Item) {
    item.Valued? ==> item.key != "promote" && item.key != "dry-run" && IsValue(item.value)
  }

  function Render(items: seq<Item>): seq<string> {
    if items == [] then ["node", "create-super-admin.ts"]
    else
      var item := items[|items| - 1];
      Render(items[..|items| - 1]) + (if item.Promote? then ["--promote"] else ["--" + item.key, item.value])
  }

  /** What the last item for a key gives it. */
  function LastGiven(items: seq<Item>, key: string): Option<Slot> {
    if items == [] then None
    else
      match items[|items| - 1]
      case Promote => if key == "promote" then Some(True) else LastGiven(items[..|items| - 1], key)
      case Valued(k, v) => if k == key then Some(Text(v)) else LastGiven(items[..|items| - 1], key)
  }

  /** Every rendered command line is read back exactly: each option has its last given value, and the
      promotion flag is present if and only if it was rendered. */
  lemma {:induction false} RenderRoundTrip(items: seq<Item>, key: string)
    requires forall i | 0 <= i < |items| :: Renderable(items[i])
    ensures |Render(items)| >= 2
    ensures LastSlot(Render(items), key, |Render(items)|) == LastGiven(items, key)
  {
    if items == [] {
      LastSlotIsLast(Render(items), key, 2);
    } else {
      var init := items[..|items| - 1];
      var item := items[|items| - 1];
      RenderRoundTrip(init, key);
      var a := Render(init);
      var b := Render(items);
      forall i | 0 <= i < |a| ensures Occurs(b, key, i) == Occurs(a, key, i) && SlotAt(b, i) == SlotAt(a, i) {
        assert b[i] == a[i];
        if i + 1 == |a| {
          assert IsOption(b[i + 1]);
        } else {
          assert b[i + 1] == a[i + 1];
        }
      }
      SameSlots(b, a, key, |a|);
      OptionKey(b[|a|], key);
      AfterToken(b, |a|);
      if item.Promote? {
        assert b[|a|][2..] == "promote";
      } else {
        assert b[|a|][2..] == item.key && b[|a| + 1] == item.value;
        AfterToken(b, |a| + 1);
        assert !Occurs(b, key, |a| + 1);
      }
    }
  }

  /** With distinct keys the script's own three options and its flag all come back as given. */
  lemma ScriptOptionsRoundTrip(email: string, name: string, googleId: string, promote: bool)
    requires IsValue(email) && IsValue(name) && IsValue(googleId)
    ensures Meaning(Render([Valued("email", email), Valued("name", name), Valued("google-id", googleId)]
                           + if promote then [Promote] else []))
         == Parsed(Some(Text(email)), Some(Text(name)), Some(Text(googleId)), promote, false)
  {
    var three := [Valued("email", email), Valued("name", name), Valued("google-id", googleId)];
    var items := three + if promote then [Promote] else [];
    assert three[..2] == [Valued("email", email), Valued("name", name)];
    assert three[..2][..1] == [Valued("email", email)];
    assert three[..2][..1][..0] == [];
    if promote {
      assert items[..3] == three;
    } else {
      assert items == three;
    }
    RenderRoundTrip(items, "email");
    RenderRoundTrip(items, "name");
    RenderRoundTrip(items, "google-id");
    RenderRoundTrip(items, "promote");
    assert LastGiven(three[..2][..1], "promote") == None;
    assert LastGiven(three[..2], "promote") == None;
    assert LastGiven(three[..2], "email") == Some(Text(email));
    assert LastGiven(three, "promote") == None;
    assert LastGiven(three, "google-id") == Some(Text(googleId));
    assert LastGiven(three, "name") == Some(Text(name));
    assert LastGiven(three, "email") == Some(Text(email));
  }
}
