/**
  The inventory system of inventory.js. Each channel has an on/off switch, at
  most one GM, and one item ledger per user. Every command is a chain of
  guards (the system is on, the author may do this, the words make sense,
  there is enough to take) followed by one load, change and save of a record.
  A thread works on the records of the channel it belongs to.
 */
module Inventory {
  import opened Wrappers
  import opened Text
  import opened Chat
  import FileStore

  /** Item name to count: the file `<channel>_<user>.json`. */
  type Ledger = map<string, int>

  /** GM user to `true`: the file `<channel>_gm.json`. */
  type GmRecord = map<Id, bool>

  /** The (channel, user) pair a ledger file is named after. */
  datatype LedgerKey = LedgerKey(channel: Id, user: Id)

  /**
    What a command sees of a message: its author, its channel, the users it
    mentions in order, whether it was sent in a server (the author is a
    member) and whether the author is an administrator or may manage the
    channel.
   */
  datatype Msg = Msg(author: Id, channel: Channel, mentions: seq<Id>, inGuild: bool, privileged: bool)

  /** The reply of a command. The ones without fields are refusals. */
  datatype Reply =
    | NotInGuild | NotPermitted | NotEnabled | NotGM | NoTarget | SelfTransfer
    | Usage | BadCount | EmptyName | Insufficient | NoSuchItem
    | AlreadyHasGM | NoGM | NotCurrentGM
    | Toggled(enabled: bool)
    | Given(target: Id, item: string, count: int)
    | Added(target: Id, item: string, count: int)
    | Removed(target: Id, item: string, count: int)
    | Deleted(target: Id, item: string)
    | Registered(gm: Id)
    | Unregistered(gm: Id)

  /** An item name and a count read from the words of a command. */
  datatype ItemCount = ItemCount(item: string, count: int)

  /** A command that passed its guards: whose ledger, which item, how many. */
  datatype Request = Request(target: Id, item: string, count: int)

  // ---------------------------------------------------------------- scope

  /** The channel whose switch, GM and ledgers a message works on. */
  function Scope(ch: Channel): (r: Id)
    ensures ch.TextChannel? ==> r == ch.id
    ensures ch.Thread? ==> r == ch.parentId
  {
    if ch.Thread? then ch.parentId else ch.id
  }

  /** All threads of a channel share that channel's inventory. */
  lemma ThreadsShareScope(a: Id, b: Id, parent: Id)
    ensures Scope(Thread(a, parent)) == Scope(Thread(b, parent)) == Scope(TextChannel(parent)) == parent
  {
  }

  // ---------------------------------------------------------------- switch

  /** `isInventoryEnabled`: only a stored `true` switches the system on. */
  function IsEnabled(settings: map<Id, bool>, c: Id): (r: bool)
    ensures c !in settings ==> !r
    ensures c in settings ==> r == settings[c]
  {
    c in settings && settings[c]
  }

  /** The flip in `setInventorySystem`; a channel never switched before becomes on. */
  function Toggle(settings: map<Id, bool>, c: Id): (r: map<Id, bool>)
    ensures IsEnabled(r, c) == !IsEnabled(settings, c)
    ensures c !in settings ==> IsEnabled(r, c)
    ensures r - {c} == settings - {c}
  {
    settings[c := !IsEnabled(settings, c)]
  }

  /** The switches after `n` toggles of channel `c`. */
  function ToggledTimes(settings: map<Id, bool>, c: Id, n: nat): map<Id, bool>
  {
    if n == 0 then settings else Toggle(ToggledTimes(settings, c, n - 1), c)
  }

  /** Each toggle flips the switch: after `n` toggles it is flipped iff `n` is odd. */
  lemma {:induction false} EnabledAfterToggles(settings: map<Id, bool>, c: Id, n: nat)
    ensures IsEnabled(ToggledTimes(settings, c, n), c) == (IsEnabled(settings, c) != (n % 2 == 1))
  {
    if n > 0 {
      EnabledAfterToggles(settings, c, n - 1);
    }
  }

  /** A channel never switched is off until it has been toggled an odd number of times. */
  lemma FreshChannelEnabledIffOdd(settings: map<Id, bool>, c: Id, n: nat)
    requires c !in settings
    ensures IsEnabled(ToggledTimes(settings, c, n), c) <==> n % 2 == 1
  {
    EnabledAfterToggles(settings, c, n);
  }

  // ---------------------------------------------------------------- GM

  /** `isGM`: the user is stored with `true` in the channel's GM file. */
  function IsGM(gms: map<Id, GmRecord>, c: Id, u: Id): (r: bool)
    ensures c !in gms ==> !r
    ensures r <==> c in gms && u in gms[c] && gms[c][u]
  {
    var rec := FileStore.Load(gms, c);
    u in rec && rec[u]
  }

  /** A stored GM file names exactly one user, with `true`. */
  predicate SoleGM(rec: GmRecord)
  {
    |rec| == 1 && forall u | u in rec :: rec[u]
  }

  predicate ValidGms(gms: map<Id, GmRecord>)
  {
    forall c | c in gms :: SoleGM(gms[c])
  }

  /** Under the GM files' invariant a channel has at most one GM. */
  lemma AtMostOneGM(gms: map<Id, GmRecord>, c: Id, u: Id, v: Id)
    requires ValidGms(gms) && IsGM(gms, c, u) && IsGM(gms, c, v)
    ensures u == v
  {
    var rec := gms[c];
    if u != v {
      assert {u, v} <= rec.Keys;
      assert |{u, v}| == 2;
      SubsetSize({u, v}, rec.Keys);
      assert false;
    }
  }

  lemma SubsetSize<T>(a: set<T>, b: set<T>)
    requires a <= b
    ensures |a| <= |b|
  {
    assert b == a + (b - a);
  }

  // ---------------------------------------------------------------- ledgers

  /** `inventory[item] || 0` */
  function Held(inv: Ledger, item: string): (r: int)
    ensures item !in inv ==> r == 0
    ensures item in inv ==> r == inv[item]
    ensures Positive(inv) ==> r >= 0 && (r > 0 <==> item in inv)
  {
    if item in inv then inv[item] else 0
  }

  /** Every stored count is positive. */
  predicate Positive(inv: Ledger)
  {
    forall i | i in inv :: inv[i] > 0
  }

  predicate ValidLedgers(ledgers: map<LedgerKey, Ledger>)
  {
    FileStore.NoEmptyRecords(ledgers) && forall k | k in ledgers :: Positive(ledgers[k])
  }

  /** Saving a ledger of positive counts keeps every stored ledger valid. */
  lemma SaveKeepsValid(ledgers: map<LedgerKey, Ledger>, key: LedgerKey, inv: Ledger)
    requires ValidLedgers(ledgers) && Positive(inv)
    ensures ValidLedgers(FileStore.Save(ledgers, key, inv))
  {
    var r := FileStore.Save(ledgers, key, inv);
    forall k | k in r ensures Positive(r[k]) {
      if k != key {
        assert k in ledgers && r[k] == ledgers[k];
      }
    }
  }

  /** `inventory[item] = (inventory[item] || 0) + n`: only `item` changes, by exactly `n`. */
  function Credit(inv: Ledger, item: string, n: int): (r: Ledger)
    ensures Held(r, item) == Held(inv, item) + n
    ensures r.Keys == inv.Keys + {item}
    ensures forall i | i != item :: Held(r, i) == Held(inv, i)
    ensures Positive(inv) && n > 0 ==> Positive(r)
  {
    inv[item := Held(inv, item) + n]
  }

  /**
    `inventory[item] -= n`, then the key is deleted when the count is no longer
    positive: a zero or negative count is never kept, and nothing else changes.
   */
  function Debit(inv: Ledger, item: string, n: int): (r: Ledger)
    requires item in inv
    ensures item in r <==> inv[item] - n > 0
    ensures inv[item] >= n ==> Held(r, item) == inv[item] - n
    ensures r.Keys <= inv.Keys
    ensures forall i | i != item :: Held(r, i) == Held(inv, i)
    ensures Positive(inv) ==> Positive(r)
  {
    var left := inv[item] - n;
    if left <= 0 then inv - {item} else inv[item := left]
  }

  /** Adding an item and then removing as many gives back the very same ledger. */
  lemma CreditThenDebit(inv: Ledger, item: string, n: int)
    requires Positive(inv) && n > 0
    ensures item in Credit(inv, item, n)
    ensures Debit(Credit(inv, item, n), item, n) == inv
  {
    var r := Debit(Credit(inv, item, n), item, n);
    if item in inv {
      assert r == inv[item := inv[item]];
    } else {
      assert r.Keys == inv.Keys;
    }
  }

  /** A transfer between two ledgers neither creates nor destroys any of the item. */
  lemma TransferConserves(from: Ledger, to: Ledger, item: string, n: int)
    requires item in from && from[item] >= n
    ensures Held(Debit(from, item, n), item) + Held(Credit(to, item, n), item) == Held(from, item) + Held(to, item)
  {
  }

  /**
    Three ropes added to one player, two handed to another, one taken by the
    GM: the first ledger ends empty, so its file is removed, and the second
    holds two.
   */
  lemma RopeScenario(files: map<LedgerKey, Ledger>, bob: LedgerKey, amy: LedgerKey)
    requires bob != amy && bob !in files && amy !in files
    ensures var added := Credit(map[], "rope", 3);
      var given := Debit(added, "rope", 2);
      var taken := Debit(given, "rope", 1);
      added == map["rope" := 3] && given == map["rope" := 1] && Credit(map[], "rope", 2) == map["rope" := 2] &&
      taken == map[] && bob !in FileStore.Save(FileStore.Save(files, amy, Credit(map[], "rope", 2)), bob, taken)
  {
    var added := Credit(map[], "rope", 3);
    assert added == map["rope" := 3];
    assert Debit(added, "rope", 2) == map["rope" := 1];
  }

  // ---------------------------------------------------------------- command words

  /**
    The item name of addItem, removeItem and deleteItem: the words joined by
    spaces and trimmed, then every `<@digits>` mention removed, then trimmed again.
   */
  function ItemName(words: seq<string>): (name: string)
    ensures name == [] || (!IsSpace(name[0]) && !IsSpace(name[|name| - 1]))
  {
    Trim(StripMentions(Trim(Join(words, " "))))
  }

  /** `!store ... @user some item`: the mention is dropped and the name is the words as typed. */
  lemma ItemNameOfCommand(id: string, words: seq<string>)
    requires id != [] && AllDigits(id)
    requires |words| > 0 && forall i :: 0 <= i < |words| ==> PlainWord(words[i])
    ensures ItemName([MentionToken(id)] + words) == Join(words, " ")
  {
    var m, j := MentionToken(id), Join(words, " ");
    assert Join([m] + words, " ") == m + " " + j by {
      JoinAfterMention(m, words);
    }
    assert Trim(StripMentions(Trim(m + " " + j))) == j by {
      JoinPlainWords(words);
      NameAfterMention(id, j);
    }
  }

  /** A mention, a space, then trimmed text free of `<`: the name is that text. */
  lemma NameAfterMention(id: string, j: string)
    requires id != [] && AllDigits(id)
    requires j != [] && !IsSpace(j[0]) && !IsSpace(j[|j| - 1])
    requires forall i :: 0 <= i < |j| ==> j[i] != '<'
    ensures Trim(StripMentions(Trim(MentionToken(id) + " " + j))) == j
  {
    var x := " " + j;
    var t := MentionToken(id) + x;
    assert MentionToken(id) + " " + j == t;
    MentionLineTrimmed(id, j);
    StripLeadingMention(id, x);
    SpaceThenPlain(j);
  }

  lemma MentionLineTrimmed(id: string, j: string)
    requires j != [] && !IsSpace(j[|j| - 1])
    ensures Trim(MentionToken(id) + (" " + j)) == MentionToken(id) + (" " + j)
  {
    var t := MentionToken(id) + (" " + j);
    assert t[0] == '<' && t[|t| - 1] == j[|j| - 1];
    TrimTrimmed(t);
  }

  lemma JoinAfterMention(m: string, words: seq<string>)
    requires |words| > 0
    ensures Join([m] + words, " ") == m + " " + Join(words, " ")
  {
    var a := [m] + words;
    assert a[0] == m && a[1..] == words;
  }

  /** A space put before trimmed text free of `<` survives mention stripping and is then trimmed away. */
  lemma SpaceThenPlain(j: string)
    requires j != [] && !IsSpace(j[0]) && !IsSpace(j[|j| - 1])
    requires forall i :: 0 <= i < |j| ==> j[i] != '<'
    ensures Trim(StripMentions(" " + j)) == j
  {
    var s := " " + j;
    assert StripMentions(s) == s by {
      forall i | 0 <= i < |s| ensures s[i] != '<' {
        if i > 0 { assert s[i] == j[i - 1]; }
      }
      StripPlainText(s);
    }
    assert TrimStart(s) == j by {
      assert s[0] == ' ' && s[1..] == j;
    }
    assert TrimEnd(j) == j;
  }

  /** `!store add @user 5`: nothing is left for the name. */
  lemma ItemNameOfMentionOnly(id: string)
    requires id != [] && AllDigits(id)
    ensures ItemName([MentionToken(id)]) == ""
  {
    var m := MentionToken(id);
    assert Join([m], " ") == m;
    TrimTrimmed(m);
    assert m + [] == m;
    StripLeadingMention(id, []);
  }

  /**
    The words of addItem and removeItem: at least two, the last one a positive
    count (`parseInt`), the others the item name.
   */
  function ParseItemAndCount(args: seq<string>): (r: Result<ItemCount, Reply>)
    ensures |args| < 2 ==> r == Failure(Usage)
    ensures r.Failure? ==> r.error == Usage || r.error == BadCount
    ensures r.Success? <==> |args| >= 2 && ParseInt(args[|args| - 1]).Some? && ParseInt(args[|args| - 1]).value > 0
    ensures r.Success? ==> r.value.count == ParseInt(args[|args| - 1]).value && r.value.item == ItemName(args[..|args| - 1])
    ensures (|args| >= 2 && !(ParseInt(args[|args| - 1]).Some? && ParseInt(args[|args| - 1]).value > 0)) ==>
      r == Failure(BadCount)
  {
    if |args| < 2 then Failure(Usage)
    else match ParseInt(args[|args| - 1])
      case None => Failure(BadCount)
      case Some(n) => if n <= 0 then Failure(BadCount) else Success(ItemCount(ItemName(args[..|args| - 1]), n))
  }

  /** `!store add @user big sword 3` reads as item `big sword`, count 3. */
  lemma ParseStoreCommand(id: string, words: seq<string>, n: nat)
    requires id != [] && AllDigits(id) && n > 0
    requires |words| > 0 && forall i :: 0 <= i < |words| ==> PlainWord(words[i])
    ensures ParseItemAndCount([MentionToken(id)] + words + [ShowNat(n)]) == Success(ItemCount(Join(words, " "), n))
  {
    var args := [MentionToken(id)] + words + [ShowNat(n)];
    assert args[..|args| - 1] == [MentionToken(id)] + words;
    ParseShowNat(n, []);
    assert ShowNat(n) + [] == ShowNat(n);
    ItemNameOfCommand(id, words);
  }

  /** `args.filter(arg => !arg.startsWith("<@"))` */
  function WithoutMentions(args: seq<string>): (r: seq<string>)
    ensures forall i :: 0 <= i < |r| ==> !StartsWith(r[i], "<@")
    ensures |r| <= |args|
  {
    if args == [] then []
    else (if StartsWith(args[0], "<@") then [] else [args[0]]) + WithoutMentions(args[1..])
  }

  /** The filter adds no word and keeps every word that is not a mention. */
  lemma {:induction false} WithoutMentionsMembers(args: seq<string>)
    ensures forall w :: w in WithoutMentions(args) ==> w in args
    ensures forall w :: w in args && !StartsWith(w, "<@") ==> w in WithoutMentions(args)
  {
    if args != [] {
      WithoutMentionsMembers(args[1..]);
      assert args == [args[0]] + args[1..];
    }
  }

  /** The filter works word by word: the words it keeps stay in their order. */
  lemma {:induction false} WithoutMentionsConcat(a: seq<string>, b: seq<string>)
    ensures WithoutMentions(a + b) == WithoutMentions(a) + WithoutMentions(b)
  {
    if a == [] {
      assert a + b == b;
    } else {
      WithoutMentionsConcat(a[1..], b);
      WithoutMentionsStep(a, b);
    }
  }

  lemma WithoutMentionsStep(a: seq<string>, b: seq<string>)
    requires a != []
    requires WithoutMentions(a[1..] + b) == WithoutMentions(a[1..]) + WithoutMentions(b)
    ensures WithoutMentions(a + b) == WithoutMentions(a) + WithoutMentions(b)
  {
    var head := if StartsWith(a[0], "<@") then [] else [a[0]];
    assert WithoutMentions(a + b) == head + (WithoutMentions(a[1..]) + WithoutMentions(b)) by {
      var s := a + b;
      assert s[0] == a[0] && s[1..] == a[1..] + b;
      WithoutMentionsFirst(s);
    }
    assert WithoutMentions(a) == head + WithoutMentions(a[1..]) by {
      WithoutMentionsFirst(a);
    }
    AppendAssoc(head, WithoutMentions(a[1..]), WithoutMentions(b));
  }

  /** One step of the filter: the first word is kept unless it is a mention. */
  lemma WithoutMentionsFirst(s: seq<string>)
    requires s != []
    ensures WithoutMentions(s) == (if StartsWith(s[0], "<@") then [] else [s[0]]) + WithoutMentions(s[1..])
  {
  }

  lemma {:induction false} WithoutMentionsKeepsPlain(args: seq<string>)
    requires forall i :: 0 <= i < |args| ==> !StartsWith(args[i], "<@")
    ensures WithoutMentions(args) == args
  {
    if args != [] {
      WithoutMentionsKeepsPlain(args[1..]);
      assert [args[0]] + args[1..] == args;
    }
  }

  /** The last word of a command line, or the empty word when there is none. */
  function Last(words: seq<string>): (r: string)
    ensures words != [] ==> r == words[|words| - 1]
  {
    if words == [] then [] else words[|words| - 1]
  }

  /** All words of a command line but the last. */
  function AllButLast(words: seq<string>): (r: seq<string>)
    ensures words != [] ==> r == words[..|words| - 1]
    ensures |r| == if words == [] then 0 else |words| - 1
  {
    if words == [] then [] else words[..|words| - 1]
  }

  /**
    The words of giveItem: mentions are dropped first; of the rest, the last is
    a positive count and the others, joined and trimmed, a non-empty item name.
   */
  function ParseGiveArgs(args: seq<string>): (r: Result<ItemCount, Reply>)
    ensures r.Failure? ==> r.error == Usage || r.error == BadCount || r.error == EmptyName
    ensures r.Success? ==> r.value.count > 0 && r.value.item != []
    ensures r.Success? ==> !IsSpace(r.value.item[0]) && !IsSpace(r.value.item[|r.value.item| - 1])
    ensures |WithoutMentions(args)| < 2 ==> r == Failure(Usage)
    ensures r.Success? <==>
      |WithoutMentions(args)| >= 2 &&
      ParseInt(Last(WithoutMentions(args))).Some? && ParseInt(Last(WithoutMentions(args))).value > 0 &&
      Trim(Join(AllButLast(WithoutMentions(args)), " ")) != []
    ensures r.Success? ==>
      r.value.count == ParseInt(Last(WithoutMentions(args))).value &&
      r.value.item == Trim(Join(AllButLast(WithoutMentions(args)), " "))
    ensures (|WithoutMentions(args)| >= 2 &&
             !(ParseInt(Last(WithoutMentions(args))).Some? && ParseInt(Last(WithoutMentions(args))).value > 0)) ==>
      r == Failure(BadCount)
    ensures (|WithoutMentions(args)| >= 2 &&
             ParseInt(Last(WithoutMentions(args))).Some? && ParseInt(Last(WithoutMentions(args))).value > 0 &&
             Trim(Join(AllButLast(WithoutMentions(args)), " ")) == []) ==>
      r == Failure(EmptyName)
  {
    ParseCountAndName(WithoutMentions(args))
  }

  /** giveItem's words once the mentions are gone: a name and then a count. */
  function ParseCountAndName(rest: seq<string>): (r: Result<ItemCount, Reply>)
    ensures r.Failure? ==> r.error == Usage || r.error == BadCount || r.error == EmptyName
    ensures r.Success? ==> r.value.count > 0 && r.value.item != []
    ensures r.Success? ==> !IsSpace(r.value.item[0]) && !IsSpace(r.value.item[|r.value.item| - 1])
    ensures |rest| < 2 ==> r == Failure(Usage)
    ensures r.Success? <==>
      |rest| >= 2 && ParseInt(Last(rest)).Some? && ParseInt(Last(rest)).value > 0 &&
      Trim(Join(AllButLast(rest), " ")) != []
    ensures r.Success? ==>
      r.value.count == ParseInt(Last(rest)).value && r.value.item == Trim(Join(AllButLast(rest), " "))
    ensures (|rest| >= 2 && !(ParseInt(Last(rest)).Some? && ParseInt(Last(rest)).value > 0)) ==>
      r == Failure(BadCount)
    ensures (|rest| >= 2 && ParseInt(Last(rest)).Some? && ParseInt(Last(rest)).value > 0 &&
             Trim(Join(AllButLast(rest), " ")) == []) ==>
      r == Failure(EmptyName)
  {
    if |rest| < 2 then Failure(Usage)
    else
      var count := ParseInt(Last(rest));
      if count.None? || count.value <= 0 then Failure(BadCount)
      else
        var item := Trim(Join(AllButLast(rest), " "));
        if item == [] then Failure(EmptyName) else Success(ItemCount(item, count.value))
  }

  /** `!inv give @user big sword 3` reads as item `big sword`, count 3. */
  lemma ParseGiveCommand(id: string, words: seq<string>, n: nat)
    requires n > 0
    requires |words| > 0 && forall i :: 0 <= i < |words| ==> PlainWord(words[i])
    ensures ParseGiveArgs([MentionToken(id)] + words + [ShowNat(n)]) == Success(ItemCount(Join(words, " "), n))
  {
    var args := [MentionToken(id)] + words + [ShowNat(n)];
    var tail := words + [ShowNat(n)];
    assert WithoutMentions(args) == tail by {
      forall i | 0 <= i < |tail| ensures !StartsWith(tail[i], "<@") {
        if i < |words| {
          assert words[i][0] != '<';
        } else {
          assert tail[i] == ShowNat(n);
          assert IsDigit(tail[i][0]);
        }
      }
      assert args[1..] == tail;
      assert StartsWith(args[0], "<@");
      WithoutMentionsFirst(args);
      WithoutMentionsKeepsPlain(tail);
    }
    assert ParseInt(Last(tail)) == Some(n) by {
      ParseShowNat(n, []);
      assert ShowNat(n) + [] == ShowNat(n);
    }
    assert Trim(Join(AllButLast(tail), " ")) == Join(words, " ") != [] by {
      assert AllButLast(tail) == words;
      JoinPlainWords(words);
      TrimTrimmed(Join(words, " "));
    }
  }

  // ---------------------------------------------------------------- guards

  /** giveItem's checks before it looks at any ledger, in their order. */
  function GiveGuard(settings: map<Id, bool>, msg: Msg, args: seq<string>): (r: Result<Request, Reply>)
    ensures r.Success? <==>
      IsEnabled(settings, Scope(msg.channel)) && msg.mentions != [] && msg.mentions[0] != msg.author && ParseGiveArgs(args).Success?
    ensures r.Success? ==>
      r.value.target == msg.mentions[0] && r.value.target != msg.author &&
      r.value.item == ParseGiveArgs(args).value.item && r.value.count == ParseGiveArgs(args).value.count
    ensures !IsEnabled(settings, Scope(msg.channel)) ==> r == Failure(NotEnabled)
    ensures IsEnabled(settings, Scope(msg.channel)) && msg.mentions == [] ==> r == Failure(NoTarget)
    ensures IsEnabled(settings, Scope(msg.channel)) && msg.mentions != [] && msg.mentions[0] == msg.author ==>
      r == Failure(SelfTransfer)
    ensures (IsEnabled(settings, Scope(msg.channel)) && msg.mentions != [] && msg.mentions[0] != msg.author &&
             ParseGiveArgs(args).Failure?) ==>
      r == Failure(ParseGiveArgs(args).error)
  {
    if !IsEnabled(settings, Scope(msg.channel)) then Failure(NotEnabled)
    else if msg.mentions == [] then Failure(NoTarget)
    else if msg.mentions[0] == msg.author then Failure(SelfTransfer)
    else match ParseGiveArgs(args)
      case Failure(e) => Failure(e)
      case Success(q) => Success(Request(msg.mentions[0], q.item, q.count))
  }

  /**
    The checks addItem, removeItem and deleteItem open with, in their order:
    the system is on in the channel, the author is its GM, a user is mentioned.
   */
  function GmTarget(settings: map<Id, bool>, gms: map<Id, GmRecord>, msg: Msg): (r: Result<Id, Reply>)
    ensures r.Success? <==>
      IsEnabled(settings, Scope(msg.channel)) && IsGM(gms, Scope(msg.channel), msg.author) && msg.mentions != []
    ensures r.Success? ==> r.value == msg.mentions[0]
    ensures r.Failure? ==> r.error == NotEnabled || r.error == NotGM || r.error == NoTarget
    ensures !IsEnabled(settings, Scope(msg.channel)) ==> r == Failure(NotEnabled)
    ensures IsEnabled(settings, Scope(msg.channel)) && !IsGM(gms, Scope(msg.channel), msg.author) ==> r == Failure(NotGM)
    ensures IsEnabled(settings, Scope(msg.channel)) && IsGM(gms, Scope(msg.channel), msg.author) && msg.mentions == [] ==>
      r == Failure(NoTarget)
  {
    if !IsEnabled(settings, Scope(msg.channel)) then Failure(NotEnabled)
    else if !IsGM(gms, Scope(msg.channel), msg.author) then Failure(NotGM)
    else if msg.mentions == [] then Failure(NoTarget)
    else Success(msg.mentions[0])
  }

  /** addItem's checks: GmTarget, then the words, then a non-empty item name. */
  function AddGuard(settings: map<Id, bool>, gms: map<Id, GmRecord>, msg: Msg, args: seq<string>): (r: Result<Request, Reply>)
    ensures r.Success? <==> GmTarget(settings, gms, msg).Success? && ParseItemAndCount(args).Success? && ParseItemAndCount(args).value.item != []
    ensures r.Success? ==> r.value.count > 0 && r.value.item != [] && IsGM(gms, Scope(msg.channel), msg.author)
    ensures GmTarget(settings, gms, msg).Success? && ParseItemAndCount(args).Success? && ParseItemAndCount(args).value.item == [] ==> r == Failure(EmptyName)
    ensures GmTarget(settings, gms, msg).Failure? ==> r == Failure(GmTarget(settings, gms, msg).error)
    ensures GmTarget(settings, gms, msg).Success? && ParseItemAndCount(args).Failure? ==>
      r == Failure(ParseItemAndCount(args).error)
  {
    match GmTarget(settings, gms, msg)
    case Failure(e) => Failure(e)
    case Success(target) =>
      match ParseItemAndCount(args)
      case Failure(e) => Failure(e)
      case Success(q) => if q.item == [] then Failure(EmptyName) else Success(Request(target, q.item, q.count))
  }

  /** removeItem's checks: GmTarget, then the words; the name may be empty. */
  function RemoveGuard(settings: map<Id, bool>, gms: map<Id, GmRecord>, msg: Msg, args: seq<string>): (r: Result<Request, Reply>)
    ensures r.Success? <==> GmTarget(settings, gms, msg).Success? && ParseItemAndCount(args).Success?
    ensures r.Success? ==> r.value.count > 0 && IsGM(gms, Scope(msg.channel), msg.author)
    ensures GmTarget(settings, gms, msg).Failure? ==> r == Failure(GmTarget(settings, gms, msg).error)
    ensures GmTarget(settings, gms, msg).Success? && ParseItemAndCount(args).Failure? ==>
      r == Failure(ParseItemAndCount(args).error)
  {
    match GmTarget(settings, gms, msg)
    case Failure(e) => Failure(e)
    case Success(target) =>
      match ParseItemAndCount(args)
      case Failure(e) => Failure(e)
      case Success(q) => Success(Request(target, q.item, q.count))
  }

  /** deleteItem's checks: GmTarget, then at least one word; all of them make the name. */
  function DeleteGuard(settings: map<Id, bool>, gms: map<Id, GmRecord>, msg: Msg, args: seq<string>): (r: Result<Request, Reply>)
    ensures r.Success? <==> GmTarget(settings, gms, msg).Success? && |args| >= 1
    ensures r.Success? ==> r.value.item == ItemName(args) && IsGM(gms, Scope(msg.channel), msg.author)
    ensures GmTarget(settings, gms, msg).Failure? ==> r == Failure(GmTarget(settings, gms, msg).error)
    ensures GmTarget(settings, gms, msg).Success? && |args| < 1 ==> r == Failure(Usage)
  {
    match GmTarget(settings, gms, msg)
    case Failure(e) => Failure(e)
    case Success(target) =>
      if |args| < 1 then Failure(Usage) else Success(Request(target, ItemName(args), 0))
  }

  /** The user registerGM and unregisterGM act on: the first mention, else the author. */
  function GmCandidate(msg: Msg): (r: Id)
    ensures r == msg.author || r in msg.mentions
    ensures msg.mentions != [] ==> r == msg.mentions[0]
    ensures msg.mentions == [] ==> r == msg.author
  {
    if msg.mentions != [] then msg.mentions[0] else msg.author
  }

  // ---------------------------------------------------------------- the system

  /**
    The module state of inventory.js: the switches it keeps in memory and
    rewrites to settings.json, and the ledger and GM files on disk.
   */
  class InventorySystem {
    var settings: map<Id, bool>
    var ledgers: map<LedgerKey, Ledger>
    var gms: map<Id, GmRecord>

    /** What every command keeps: positive counts, no empty file, one GM per GM file. */
    ghost predicate Valid()
      reads this
    {
      ValidLedgers(ledgers) && ValidGms(gms)
    }

    /** The state found at start-up: settings.json and the files saved by earlier runs. */
    constructor (savedSettings: map<Id, bool>, savedLedgers: map<LedgerKey, Ledger>, savedGms: map<Id, GmRecord>)
      requires ValidLedgers(savedLedgers) && ValidGms(savedGms)
      ensures Valid()
      ensures settings == savedSettings && ledgers == savedLedgers && gms == savedGms
    {
      settings, ledgers, gms := savedSettings, savedLedgers, savedGms;
    }

    /**
      `saveData` on one ledger file: an empty ledger removes the file, any
      other replaces it; the settings and the GM files are untouched.
     */
    method SaveLedger(key: LedgerKey, inventory: Ledger)
      requires Valid() && Positive(inventory)
      modifies this
      ensures Valid() && settings == old(settings) && gms == old(gms)
      ensures ledgers == FileStore.Save(old(ledgers), key, inventory)
      ensures FileStore.Load(ledgers, key) == inventory
    {
      SaveKeepsValid(ledgers, key, inventory);
      ledgers := FileStore.Save(ledgers, key, inventory);
    }

    /** `setInventorySystem`: a server member with the right to manage the channel flips its switch. */
    method SetInventorySystem(msg: Msg) returns (reply: Reply)
      requires Valid()
      modifies this
      ensures Valid() && ledgers == old(ledgers) && gms == old(gms)
      ensures !msg.inGuild ==> reply == NotInGuild && settings == old(settings)
      ensures msg.inGuild && !msg.privileged ==> reply == NotPermitted && settings == old(settings)
      ensures msg.inGuild && msg.privileged ==>
        settings == Toggle(old(settings), Scope(msg.channel)) &&
        reply == Toggled(IsEnabled(settings, Scope(msg.channel))) &&
        IsEnabled(settings, Scope(msg.channel)) == !IsEnabled(old(settings), Scope(msg.channel))
    {
      if !msg.inGuild {
        return NotInGuild;
      }
      var c := Scope(msg.channel);
      if !msg.privileged {
        return NotPermitted;
      }
      settings := settings[c := !IsEnabled(settings, c)];
      reply := Toggled(IsEnabled(settings, c));
    }

    /** `showInventory`: the author's own ledger in this channel, possibly empty. */
    method ShowInventory(msg: Msg) returns (r: Result<Ledger, Reply>)
      requires Valid()
      ensures !IsEnabled(settings, Scope(msg.channel)) ==> r == Failure(NotEnabled)
      ensures IsEnabled(settings, Scope(msg.channel)) ==> r.Success? && Positive(r.value)
      ensures r.Success? ==> forall item :: Held(r.value, item) == Held(FileStore.Load(ledgers, LedgerKey(Scope(msg.channel), msg.author)), item)
    {
      var c := Scope(msg.channel);
      if !IsEnabled(settings, c) {
        return Failure(NotEnabled);
      }
      r := Success(FileStore.Load(ledgers, LedgerKey(c, msg.author)));
    }

    /** `checkInventory`: the GM reads the mentioned user's ledger. */
    method CheckInventory(msg: Msg) returns (r: Result<Ledger, Reply>)
      requires Valid()
      ensures r.Failure? <==> GmTarget(settings, gms, msg).Failure?
      ensures r.Failure? ==> r.error == GmTarget(settings, gms, msg).error
      ensures r.Success? ==>
        IsGM(gms, Scope(msg.channel), msg.author) && Positive(r.value) &&
        r.value == FileStore.Load(ledgers, LedgerKey(Scope(msg.channel), msg.mentions[0]))
    {
      var c := Scope(msg.channel);
      if !IsEnabled(settings, c) {
        return Failure(NotEnabled);
      }
      if !IsGM(gms, c, msg.author) {
        return Failure(NotGM);
      }
      if msg.mentions == [] {
        return Failure(NoTarget);
      }
      r := Success(FileStore.Load(ledgers, LedgerKey(c, msg.mentions[0])));
    }

    /**
      `giveItem`: a player hands some of an item to another player of the
      channel. Nothing changes unless every check passes and the sender holds
      enough; then the sender loses exactly `count` (the item is dropped at
      zero) and the receiver gains exactly `count`.
     */
    method GiveItem(msg: Msg, args: seq<string>) returns (reply: Reply)
      requires Valid()
      modifies this
      ensures Valid() && settings == old(settings) && gms == old(gms)
      ensures match GiveGuard(old(settings), msg, args)
        case Failure(e) => reply == e && ledgers == old(ledgers)
        case Success(q) =>
          var from := LedgerKey(Scope(msg.channel), msg.author);
          var to := LedgerKey(Scope(msg.channel), q.target);
          var sender := FileStore.Load(old(ledgers), from);
          if Held(sender, q.item) < q.count then
            reply == Insufficient && ledgers == old(ledgers)
          else
            reply == Given(q.target, q.item, q.count) &&
            ledgers == FileStore.Save(FileStore.Save(old(ledgers), from, Debit(sender, q.item, q.count)),
                                      to, Credit(FileStore.Load(old(ledgers), to), q.item, q.count))
      ensures reply.Given? ==>
        var from := LedgerKey(Scope(msg.channel), msg.author);
        var to := LedgerKey(Scope(msg.channel), reply.target);
        Held(FileStore.Load(ledgers, from), reply.item) == Held(FileStore.Load(old(ledgers), from), reply.item) - reply.count &&
        Held(FileStore.Load(ledgers, to), reply.item) == Held(FileStore.Load(old(ledgers), to), reply.item) + reply.count
    {
      var guard := GiveGuard(settings, msg, args);
      if guard.Failure? {
        return guard.error;
      }
      var c := Scope(msg.channel);
      var target, item, count := guard.value.target, guard.value.item, guard.value.count;
      var fromKey := LedgerKey(c, msg.author);
      var sender := FileStore.Load(ledgers, fromKey);
      if Held(sender, item) == 0 || Held(sender, item) < count {
        return Insufficient;
      }
      MoveItem(fromKey, LedgerKey(c, target), item, count);
      reply := Given(target, item, count);
    }

    /**
      The transfer at the end of `giveItem`: the sender's ledger loses
      `count` of the item (dropped at zero) and the receiver's gains `count`;
      both files are saved and no other ledger changes.
     */
    method MoveItem(fromKey: LedgerKey, toKey: LedgerKey, item: string, count: int)
      requires Valid() && fromKey != toKey && count > 0
      requires Held(FileStore.Load(ledgers, fromKey), item) >= count
      modifies this
      ensures Valid() && settings == old(settings) && gms == old(gms)
      ensures ledgers == FileStore.Save(FileStore.Save(old(ledgers), fromKey, Debit(FileStore.Load(old(ledgers), fromKey), item, count)),
                                        toKey, Credit(FileStore.Load(old(ledgers), toKey), item, count))
      ensures Held(FileStore.Load(ledgers, fromKey), item) == Held(FileStore.Load(old(ledgers), fromKey), item) - count
      ensures Held(FileStore.Load(ledgers, toKey), item) == Held(FileStore.Load(old(ledgers), toKey), item) + count
      ensures forall k | k != fromKey && k != toKey :: FileStore.Load(ledgers, k) == FileStore.Load(old(ledgers), k)
    {
      var sender := FileStore.Load(ledgers, fromKey);
      var receiver := FileStore.Load(ledgers, toKey);
      sender := Debit(sender, item, count);
      receiver := Credit(receiver, item, count);
      SaveLedger(fromKey, sender);
      ghost var between := ledgers;
      SaveLedger(toKey, receiver);
      forall k | k != fromKey && k != toKey ensures FileStore.Load(ledgers, k) == FileStore.Load(old(ledgers), k) {
        FileStore.LoadElsewhere(old(ledgers), between, fromKey, k);
        FileStore.LoadElsewhere(between, ledgers, toKey, k);
      }
    }

    /** `addItem`: the GM adds `count` of an item to a player's ledger. */
    method AddItem(msg: Msg, args: seq<string>) returns (reply: Reply)
      requires Valid()
      modifies this
      ensures Valid() && settings == old(settings) && gms == old(gms)
      ensures match AddGuard(old(settings), old(gms), msg, args)
        case Failure(e) => reply == e && ledgers == old(ledgers)
        case Success(q) =>
          var key := LedgerKey(Scope(msg.channel), q.target);
          reply == Added(q.target, q.item, q.count) &&
          ledgers == old(ledgers)[key := Credit(FileStore.Load(old(ledgers), key), q.item, q.count)]
    {
      var guard := AddGuard(settings, gms, msg, args);
      if guard.Failure? {
        return guard.error;
      }
      var target, item, count := guard.value.target, guard.value.item, guard.value.count;
      var key := LedgerKey(Scope(msg.channel), target);
      var inventory := FileStore.Load(ledgers, key);
      inventory := Credit(inventory, item, count);
      SaveLedger(key, inventory);
      assert ledgers == old(ledgers)[key := inventory];
      reply := Added(target, item, count);
    }

    /**
      `removeItem`: the GM takes `count` of an item from a player. A player
      holding less than `count` is refused, not emptied; on success the count
      drops by exactly `count` and the item goes when none is left.
     */
    method RemoveItem(msg: Msg, args: seq<string>) returns (reply: Reply)
      requires Valid()
      modifies this
      ensures Valid() && settings == old(settings) && gms == old(gms)
      ensures match RemoveGuard(old(settings), old(gms), msg, args)
        case Failure(e) => reply == e && ledgers == old(ledgers)
        case Success(q) =>
          var key := LedgerKey(Scope(msg.channel), q.target);
          var inventory := FileStore.Load(old(ledgers), key);
          if Held(inventory, q.item) < q.count then
            reply == Insufficient && ledgers == old(ledgers)
          else
            reply == Removed(q.target, q.item, q.count) &&
            ledgers == FileStore.Save(old(ledgers), key, Debit(inventory, q.item, q.count)) &&
            Held(FileStore.Load(ledgers, key), q.item) == Held(inventory, q.item) - q.count
    {
      var guard := RemoveGuard(settings, gms, msg, args);
      if guard.Failure? {
        return guard.error;
      }
      var target, item, count := guard.value.target, guard.value.item, guard.value.count;
      var key := LedgerKey(Scope(msg.channel), target);
      var inventory := FileStore.Load(ledgers, key);
      if Held(inventory, item) == 0 || Held(inventory, item) < count {
        return Insufficient;
      }
      inventory := Debit(inventory, item, count);
      SaveLedger(key, inventory);
      reply := Removed(target, item, count);
    }

    /** `deleteItem`: the GM drops an item from a player's ledger whatever its count. */
    method DeleteItem(msg: Msg, args: seq<string>) returns (reply: Reply)
      requires Valid()
      modifies this
      ensures Valid() && settings == old(settings) && gms == old(gms)
      ensures match DeleteGuard(old(settings), old(gms), msg, args)
        case Failure(e) => reply == e && ledgers == old(ledgers)
        case Success(q) =>
          var key := LedgerKey(Scope(msg.channel), q.target);
          var inventory := FileStore.Load(old(ledgers), key);
          if q.item !in inventory then
            reply == NoSuchItem && ledgers == old(ledgers)
          else
            reply == Deleted(q.target, q.item) &&
            ledgers == FileStore.Save(old(ledgers), key, inventory - {q.item})
    {
      var guard := DeleteGuard(settings, gms, msg, args);
      if guard.Failure? {
        return guard.error;
      }
      var target, item := guard.value.target, guard.value.item;
      var key := LedgerKey(Scope(msg.channel), target);
      var inventory := FileStore.Load(ledgers, key);
      if Held(inventory, item) == 0 {
        return NoSuchItem;
      }
      inventory := inventory - {item};
      SaveLedger(key, inventory);
      reply := Deleted(target, item);
    }

    /**
      `registerGM`: an administrator or moderator makes the mentioned user (or
      themself) the channel's GM; refused while the channel has one.
     */
    method RegisterGM(msg: Msg) returns (reply: Reply)
      requires Valid()
      modifies this
      ensures Valid() && settings == old(settings) && ledgers == old(ledgers)
      ensures !IsEnabled(settings, Scope(msg.channel)) ==> reply == NotEnabled && gms == old(gms)
      ensures IsEnabled(settings, Scope(msg.channel)) && !msg.privileged ==> reply == NotPermitted && gms == old(gms)
      ensures IsEnabled(settings, Scope(msg.channel)) && msg.privileged && Scope(msg.channel) in old(gms) ==>
        reply == AlreadyHasGM && gms == old(gms)
      ensures reply.Registered? <==>
        IsEnabled(settings, Scope(msg.channel)) && msg.privileged && Scope(msg.channel) !in old(gms)
      ensures reply.Registered? ==>
        reply.gm == GmCandidate(msg) &&
        gms == old(gms)[Scope(msg.channel) := map[GmCandidate(msg) := true]] &&
        forall u :: IsGM(gms, Scope(msg.channel), u) <==> u == GmCandidate(msg)
    {
      var c := Scope(msg.channel);
      if !IsEnabled(settings, c) {
        return NotEnabled;
      }
      if !msg.privileged {
        return NotPermitted;
      }
      var target := GmCandidate(msg);
      var gmData := FileStore.Load(gms, c);
      if |gmData| > 0 {
        return AlreadyHasGM;
      }
      gmData := gmData[target := true];
      gms := FileStore.Save(gms, c, gmData);
      reply := Registered(target);
    }

    /**
      `unregisterGM`: an administrator, a moderator or the GM themself removes
      the channel's GM; the user named must be the current GM, and the GM file
      goes with them.
     */
    method UnregisterGM(msg: Msg) returns (reply: Reply)
      requires Valid()
      modifies this
      ensures Valid() && settings == old(settings) && ledgers == old(ledgers)
      ensures !reply.Unregistered? ==> gms == old(gms)
      ensures !IsEnabled(settings, Scope(msg.channel)) ==> reply == NotEnabled
      ensures IsEnabled(settings, Scope(msg.channel)) && !msg.privileged && !IsGM(old(gms), Scope(msg.channel), msg.author) ==>
        reply == NotPermitted
      ensures IsEnabled(settings, Scope(msg.channel)) && (msg.privileged || IsGM(old(gms), Scope(msg.channel), msg.author)) ==>
        (Scope(msg.channel) !in old(gms) ==> reply == NoGM) &&
        (Scope(msg.channel) in old(gms) && !IsGM(old(gms), Scope(msg.channel), GmCandidate(msg)) ==>
           reply == NotCurrentGM) &&
        (IsGM(old(gms), Scope(msg.channel), GmCandidate(msg)) ==> reply == Unregistered(GmCandidate(msg)))
      ensures reply.Unregistered? ==>
        IsGM(old(gms), Scope(msg.channel), reply.gm) &&
        gms == old(gms) - {Scope(msg.channel)} &&
        forall u :: !IsGM(gms, Scope(msg.channel), u)
    {
      var c := Scope(msg.channel);
      if !IsEnabled(settings, c) {
        return NotEnabled;
      }
      var isCurrentGM := IsGM(gms, c, msg.author);
      if !msg.privileged && !isCurrentGM {
        return NotPermitted;
      }
      var target := GmCandidate(msg);
      var gmData := FileStore.Load(gms, c);
      if gmData == map[] {
        return NoGM;
      }
      var currentGM :| currentGM in gmData;
      assert IsGM(gms, c, target) ==> target == currentGM by {
        if IsGM(gms, c, target) {
          AtMostOneGM(gms, c, target, currentGM);
        }
      }
      if target != currentGM {
        return NotCurrentGM;
      }
      gmData := gmData - {target};
      gms := FileStore.Save(gms, c, gmData);
      reply := Unregistered(target);
    }
  }
}
