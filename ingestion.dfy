/**
 * Importing lines into the store: finding the chat an entry belongs to (or
 * opening one), folding the entry into it, keeping the entry, and the import
 * loop that stops at the first bad line. The document database is modelled as
 * two collections: chats keyed by chat id, and the entries in insertion order.
 */
module Ingestion {
  import opened Wrappers
  import opened Entries
  import opened Chats

  /** The two collections. The chats map is keyed by chat id, so a lookup finds at most one chat. */
  datatype Store = Store(chats: map<string, ChatState>, entries: seq<Entry>)

  /** The chat a customer entry opens: identity and the span from the entry, everything else zero, empty or false. */
  function NewChat(e: Entry): ChatState {
    ChatState(
      chatId := e.chatId,
      authors := [],
      title := e.title,
      url := e.url,
      start := e.timestamp,
      end := e.timestamp,
      firstResponser := 0,
      interactions := 0,
      customerInteractions := 0,
      customerWords := 0,
      supportWords := 0,
      customerLastResponder := false,
      channel := e.channel,
      respondedWithLink := false,
      respondedWithDoc := false)
  }

  /** What getChat decides for an entry. */
  datatype Resolution =
    | Found(chat: ChatState)
    | Seeded(chat: ChatState)
      /** A support reply for a chat that does not exist: the entry is dropped. */
    | Orphan

  /**
   * getChat: the stored chat with the entry's id; otherwise a new chat when the
   * entry is the customer's; otherwise nothing.
   */
  function Resolve(chats: map<string, ChatState>, e: Entry): (r: Resolution)
    ensures r.Found? <==> e.chatId in chats
    ensures r.Found? ==> r.chat == chats[e.chatId]
    ensures r.Orphan? <==> e.chatId !in chats && !IsCustomer(e)
    ensures r.Seeded? ==> IsCustomer(e)
    ensures r.Seeded? ==> var c := r.chat;
              && c.chatId == e.chatId && c.title == e.title && c.url == e.url && c.channel == e.channel
              && c.start == e.timestamp && c.end == e.timestamp && c.firstResponser == 0
              && c.interactions == 0 && c.customerInteractions == 0
              && c.customerWords == 0 && c.supportWords == 0 && c.authors == []
              && !c.customerLastResponder && !c.respondedWithLink && !c.respondedWithDoc
  {
    if e.chatId in chats then Found(chats[e.chatId])
    else if !IsCustomer(e) then Orphan
    else Seeded(NewChat(e))
  }

  /** What addEntry reports for one line. */
  datatype LineOutcome =
    | Stored(entry: Entry)
      /** addEntry returned neither an entry nor an error. */
    | Skipped
      /** The line did not parse; the import stops. */
    | Failed(reason: ParseResult)

  /**
   * addEntry on the store: parse the line, resolve its chat, fold the entry in,
   * write the chat back and append the entry. A failure and a skip leave the
   * store as it was.
   */
  function Ingest(s: Store, line: string, parseTime: string -> Option<int>): (LineOutcome, Store) {
    match ParseLine(line, parseTime)
    case Parsed(e) =>
      (match Resolve(s.chats, e)
       case Orphan => (Skipped, s)
       case Found(c) => (Stored(e), Store(s.chats[e.chatId := Fold(c, e)], s.entries + [e]))
       case Seeded(c) => (Stored(e), Store(s.chats[e.chatId := Fold(c, e)], s.entries + [e])))
    case other => (Failed(other), s)
  }

  /** How an import run ends: every line went through, or the line at `line` (0-based) stopped it. */
  datatype ImportOutcome = Completed | Aborted(line: nat, reason: ParseResult)

  /** An outcome of a run over a suffix, told from the start of the whole input. */
  function Shift(r: ImportOutcome, n: nat): ImportOutcome {
    match r
    case Completed => Completed
    case Aborted(i, why) => Aborted(i + n, why)
  }

  /** import_data: add the lines in order; the first failure ends the run. */
  function ImportRun(s: Store, lines: seq<string>, parseTime: string -> Option<int>): (ImportOutcome, Store)
    decreases |lines|
  {
    if lines == [] then (Completed, s)
    else
      var (o, s1) := Ingest(s, lines[0], parseTime);
      if o.Failed? then (Aborted(0, o.reason), s1)
      else
        var (r, s2) := ImportRun(s1, lines[1..], parseTime);
        (Shift(r, 1), s2)
  }

  // ---------------------------------------------------------------------------
  // One line

  /** A line that does not parse is reported with the parser's reason and changes nothing. */
  lemma IngestFailure(s: Store, line: string, parseTime: string -> Option<int>)
    ensures Ingest(s, line, parseTime).0.Failed? <==> !ParseLine(line, parseTime).Parsed?
    ensures Ingest(s, line, parseTime).0.Failed? ==>
              Ingest(s, line, parseTime).0.reason == ParseLine(line, parseTime)
              && Ingest(s, line, parseTime).1 == s
  {
  }

  /** A support reply for an unknown chat is dropped: no chat is opened and no entry is kept. */
  lemma IngestOrphan(s: Store, line: string, parseTime: string -> Option<int>)
    requires ParseLine(line, parseTime).Parsed?
    ensures var e := ParseLine(line, parseTime).entry;
            Ingest(s, line, parseTime).0 == Skipped <==> e.chatId !in s.chats && !IsCustomer(e)
    ensures Ingest(s, line, parseTime).0 == Skipped ==> Ingest(s, line, parseTime).1 == s
  {
  }

  /**
   * A customer line for an unknown chat opens it. The opening entry counts as
   * one customer interaction, and since it is not later than the chat's own
   * end, it does not make the customer the last responder.
   */
  lemma IngestSeeds(s: Store, line: string, parseTime: string -> Option<int>)
    requires ParseLine(line, parseTime).Parsed?
    requires var e := ParseLine(line, parseTime).entry; IsCustomer(e) && e.chatId !in s.chats
    ensures var e := ParseLine(line, parseTime).entry;
            var (o, s') := Ingest(s, line, parseTime);
            && o == Stored(e)
            && s'.entries == s.entries + [e]
            && s'.chats.Keys == s.chats.Keys + {e.chatId}
            && (forall id :: id in s.chats ==> s'.chats[id] == s.chats[id])
            && var c := s'.chats[e.chatId];
               && c.chatId == e.chatId && c.title == e.title && c.url == e.url && c.channel == e.channel
               && c.start == e.timestamp && c.end == e.timestamp
               && c.customerInteractions == 1 && c.customerWords == WordCount(e)
               && c.interactions == 0 && c.supportWords == 0 && c.authors == []
               && c.firstResponser == 0 && !c.customerLastResponder
               && !c.respondedWithLink && !c.respondedWithDoc
  {
    var e := ParseLine(line, parseTime).entry;
    assert Resolve(s.chats, e) == Seeded(NewChat(e));
    var c := Fold(NewChat(e), e);
    assert Ingest(s, line, parseTime) == (Stored(e), Store(s.chats[e.chatId := c], s.entries + [e]));
    assert c.customerInteractions == 1 && c.authors == [] && !c.customerLastResponder;
  }

  /** A line for a known chat folds its entry into that chat only, and keeps the entry. */
  lemma IngestUpdates(s: Store, line: string, parseTime: string -> Option<int>)
    requires ParseLine(line, parseTime).Parsed?
    requires ParseLine(line, parseTime).entry.chatId in s.chats
    ensures var e := ParseLine(line, parseTime).entry;
            var (o, s') := Ingest(s, line, parseTime);
            && o == Stored(e)
            && s'.entries == s.entries + [e]
            && s'.chats.Keys == s.chats.Keys
            && s'.chats[e.chatId] == Fold(s.chats[e.chatId], e)
            && (forall id :: id in s.chats && id != e.chatId ==> s'.chats[id] == s.chats[id])
  {
  }

  // ---------------------------------------------------------------------------
  // The store invariant: every chat is exactly the fold of its own entries

  /** The entries of one chat, in insertion order. */
  function EntriesFor(es: seq<Entry>, id: string): seq<Entry>
    decreases |es|
  {
    if es == [] then []
    else EntriesFor(es[..|es| - 1], id) + (if es[|es| - 1].chatId == id then [es[|es| - 1]] else [])
  }

  lemma EntriesForSnoc(es: seq<Entry>, e: Entry, id: string)
    ensures EntriesFor(es + [e], id) == EntriesFor(es, id) + (if e.chatId == id then [e] else [])
  {
    assert (es + [e])[..|es|] == es;
  }

  /** EntriesFor picks exactly the entries with that id. */
  lemma {:induction false} EntriesForMembers(es: seq<Entry>, id: string)
    ensures forall e :: e in EntriesFor(es, id) <==> e in es && e.chatId == id
    decreases |es|
  {
    if es != [] {
      EntriesForMembers(es[..|es| - 1], id);
      assert es == es[..|es| - 1] + [es[|es| - 1]];
    }
  }

  lemma {:induction false} FoldAllSnoc(c: ChatState, es: seq<Entry>, e: Entry)
    ensures FoldAll(c, es + [e]) == Fold(FoldAll(c, es), e)
    decreases |es|
  {
    if es == [] {
      assert [e][1..] == [];
    } else {
      assert (es + [e])[1..] == es[1..] + [e];
      FoldAllSnoc(Fold(c, es[0]), es[1..], e);
    }
  }

  lemma {:induction false} FoldAllValid(c: ChatState, es: seq<Entry>)
    requires Valid(c)
    ensures Valid(FoldAll(c, es))
    decreases |es|
  {
    if es != [] {
      FoldValid(c, es[0]);
      FoldAllValid(Fold(c, es[0]), es[1..]);
    }
  }

  /** The chat stored under `id` was opened by the first of its entries, a customer's, and is the fold of all of them. */
  predicate ChatMatchesEntries(s: Store, id: string)
    requires id in s.chats
  {
    var es := EntriesFor(s.entries, id);
    && es != []
    && IsCustomer(es[0])
    && s.chats[id] == FoldAll(NewChat(es[0]), es)
  }

  /** The store invariant the importer keeps. */
  predicate StoreValid(s: Store) {
    && (forall i :: 0 <= i < |s.entries| ==>
          s.entries[i].chatId in s.chats && s.entries[i].channel == ChannelOf(s.entries[i].chatId))
    && (forall id :: id in s.chats ==> ChatMatchesEntries(s, id))
  }

  /** An empty database satisfies the invariant. */
  lemma EmptyStoreValid()
    ensures StoreValid(Store(map[], []))
  {
  }

  /** In a valid store every chat satisfies the chat invariant and carries its key as id. */
  lemma StoreChatsValid(s: Store, id: string)
    requires StoreValid(s) && id in s.chats
    ensures Valid(s.chats[id]) && s.chats[id].chatId == id
  {
    var es := EntriesFor(s.entries, id);
    EntriesForMembers(s.entries, id);
    assert es[0] in es;
    var k :| 0 <= k < |s.entries| && s.entries[k] == es[0];
    assert Valid(NewChat(es[0]));
    FoldAllValid(NewChat(es[0]), es);
    FoldAllKeepsId(NewChat(es[0]), es);
  }

  lemma {:induction false} FoldAllKeepsId(c: ChatState, es: seq<Entry>)
    ensures FoldAll(c, es).chatId == c.chatId
    decreases |es|
  {
    if es != [] {
      FoldAllKeepsId(Fold(c, es[0]), es[1..]);
    }
  }

  /** A chat id with no stored chat has no stored entries. */
  lemma NoEntriesForUnknownId(s: Store, id: string)
    requires StoreValid(s) && id !in s.chats
    ensures EntriesFor(s.entries, id) == []
  {
    EntriesForNone(s.entries, id);
  }

  lemma {:induction false} EntriesForNone(es: seq<Entry>, id: string)
    requires forall i :: 0 <= i < |es| ==> es[i].chatId != id
    ensures EntriesFor(es, id) == []
    decreases |es|
  {
    if es != [] {
      EntriesForNone(es[..|es| - 1], id);
    }
  }

  /** The entry and the chat that an accepted line stores. */
  predicate Admissible(s: Store, e: Entry, c: ChatState) {
    && e.channel == ChannelOf(e.chatId)
    && ((e.chatId in s.chats && c == s.chats[e.chatId])
        || (e.chatId !in s.chats && IsCustomer(e) && c == NewChat(e)))
  }

  /** The store after an accepted line. */
  function Append(s: Store, e: Entry, c: ChatState): Store {
    Store(s.chats[e.chatId := Fold(c, e)], s.entries + [e])
  }

  /** The chat of the added entry matches its entries afterwards. */
  lemma AppendKeepsOwnChat(s: Store, e: Entry, c: ChatState)
    requires StoreValid(s) && Admissible(s, e, c)
    ensures ChatMatchesEntries(Append(s, e, c), e.chatId)
  {
    var id := e.chatId;
    var s' := Append(s, e, c);
    EntriesForSnoc(s.entries, e, id);
    if id in s.chats {
      var es := EntriesFor(s.entries, id);
      assert ChatMatchesEntries(s, id);
      assert EntriesFor(s'.entries, id) == es + [e];
      FoldAllSnoc(NewChat(es[0]), es, e);
    } else {
      NoEntriesForUnknownId(s, id);
      assert EntriesFor(s'.entries, id) == [e];
      assert [e][1..] == [];
    }
  }

  /** The other chats still match their entries afterwards. */
  lemma AppendKeepsOtherChat(s: Store, e: Entry, c: ChatState, id: string)
    requires StoreValid(s) && id in s.chats && id != e.chatId
    ensures ChatMatchesEntries(Append(s, e, c), id)
  {
    var s' := Append(s, e, c);
    EntriesForSnoc(s.entries, e, id);
    assert ChatMatchesEntries(s, id);
    assert EntriesFor(s'.entries, id) == EntriesFor(s.entries, id);
    assert s'.chats[id] == s.chats[id];
  }

  lemma AppendPreservesStoreValid(s: Store, e: Entry, c: ChatState)
    requires StoreValid(s) && Admissible(s, e, c)
    ensures StoreValid(Append(s, e, c))
  {
    var s' := Append(s, e, c);
    forall id | id in s'.chats
      ensures ChatMatchesEntries(s', id)
    {
      if id == e.chatId {
        AppendKeepsOwnChat(s, e, c);
      } else {
        AppendKeepsOtherChat(s, e, c, id);
      }
    }
    assert forall i :: 0 <= i < |s.entries| ==> s'.entries[i] == s.entries[i];
  }

  /** One line in terms of Append: failures and skips change nothing, an accepted line appends. */
  lemma IngestIsAppend(s: Store, line: string, parseTime: string -> Option<int>)
    ensures var (o, s') := Ingest(s, line, parseTime);
            o.Stored? ==> o.entry == ParseLine(line, parseTime).entry
                          && Admissible(s, o.entry, Resolve(s.chats, o.entry).chat)
                          && s' == Append(s, o.entry, Resolve(s.chats, o.entry).chat)
    ensures !Ingest(s, line, parseTime).0.Stored? ==> Ingest(s, line, parseTime).1 == s
  {
  }

  /** Adding a line keeps the store invariant. */
  lemma IngestPreservesStoreValid(s: Store, line: string, parseTime: string -> Option<int>)
    requires StoreValid(s)
    ensures StoreValid(Ingest(s, line, parseTime).1)
  {
    IngestIsAppend(s, line, parseTime);
    var o := Ingest(s, line, parseTime).0;
    if o.Stored? {
      AppendPreservesStoreValid(s, o.entry, Resolve(s.chats, o.entry).chat);
    }
  }

  /** One line only adds: the old entries stay first and no chat disappears. */
  lemma IngestOnlyAdds(s: Store, line: string, parseTime: string -> Option<int>)
    ensures var s' := Ingest(s, line, parseTime).1;
            |s.entries| <= |s'.entries| <= |s.entries| + 1 && s'.entries[..|s.entries|] == s.entries
            && s.chats.Keys <= s'.chats.Keys
  {
    IngestIsAppend(s, line, parseTime);
    var (o, s') := Ingest(s, line, parseTime);
    if o.Stored? {
      assert (s.entries + [o.entry])[..|s.entries|] == s.entries;
    }
  }

  // ---------------------------------------------------------------------------
  // The import run

  lemma ShiftShift(r: ImportOutcome, m: nat, n: nat)
    ensures Shift(Shift(r, m), n) == Shift(r, m + n)
  {
  }

  /** An import keeps the store invariant, whether it completes or stops. */
  lemma {:induction false} ImportPreservesStoreValid(s: Store, lines: seq<string>, parseTime: string -> Option<int>)
    requires StoreValid(s)
    ensures StoreValid(ImportRun(s, lines, parseTime).1)
    decreases |lines|
  {
    if lines != [] {
      IngestPreservesStoreValid(s, lines[0], parseTime);
      var s1 := Ingest(s, lines[0], parseTime).1;
      if !Ingest(s, lines[0], parseTime).0.Failed? {
        ImportPreservesStoreValid(s1, lines[1..], parseTime);
      }
    }
  }

  /** One step of the run: a failing first line stops it at 0; otherwise the rest runs from the new store. */
  lemma ImportRunStep(s: Store, lines: seq<string>, parseTime: string -> Option<int>)
    requires lines != []
    ensures var (o, s1) := Ingest(s, lines[0], parseTime);
            && (o.Failed? <==> !ParseLine(lines[0], parseTime).Parsed?)
            && (o.Failed? ==> ImportRun(s, lines, parseTime) == (Aborted(0, ParseLine(lines[0], parseTime)), s))
            && (!o.Failed? ==> ImportRun(s, lines, parseTime)
                               == (Shift(ImportRun(s1, lines[1..], parseTime).0, 1), ImportRun(s1, lines[1..], parseTime).1))
  {
    IngestFailure(s, lines[0], parseTime);
  }

  /** Every line parses exactly when the first does and every later one does. */
  lemma AllParseCons(lines: seq<string>, parseTime: string -> Option<int>)
    requires lines != []
    ensures (forall i :: 0 <= i < |lines| ==> ParseLine(lines[i], parseTime).Parsed?) <==>
              ParseLine(lines[0], parseTime).Parsed?
              && forall i :: 0 <= i < |lines[1..]| ==> ParseLine(lines[1..][i], parseTime).Parsed?
  {
    assert forall i :: 1 <= i < |lines| ==> lines[i] == lines[1..][i - 1];
  }

  /** The run completes exactly when every line parses. */
  lemma {:induction false} ImportCompletes(s: Store, lines: seq<string>, parseTime: string -> Option<int>)
    ensures ImportRun(s, lines, parseTime).0.Completed? <==>
              forall i :: 0 <= i < |lines| ==> ParseLine(lines[i], parseTime).Parsed?
    decreases |lines|
  {
    if lines != [] {
      ImportRunStep(s, lines, parseTime);
      AllParseCons(lines, parseTime);
      var s1 := Ingest(s, lines[0], parseTime).1;
      if ParseLine(lines[0], parseTime).Parsed? {
        ImportCompletes(s1, lines[1..], parseTime);
      }
    }
  }

  /** Lines before position n + 1 parse when the first does and those of the rest before n do. */
  lemma ParsedPrefixCons(lines: seq<string>, n: nat, parseTime: string -> Option<int>)
    requires n < |lines| && ParseLine(lines[0], parseTime).Parsed?
    requires forall i :: 0 <= i < n ==> ParseLine(lines[1..][i], parseTime).Parsed?
    ensures forall i :: 0 <= i < n + 1 ==> ParseLine(lines[i], parseTime).Parsed?
  {
    assert forall i :: 1 <= i < |lines| ==> lines[i] == lines[1..][i - 1];
  }

  /** A run that stops does so at the first line that does not parse, with that line's reason. */
  lemma {:induction false} ImportStopsAtFirstBadLine(s: Store, lines: seq<string>, parseTime: string -> Option<int>)
    ensures var r := ImportRun(s, lines, parseTime).0;
            r.Aborted? ==> r.line < |lines| && r.reason == ParseLine(lines[r.line], parseTime)
                           && !r.reason.Parsed?
                           && forall i :: 0 <= i < r.line ==> ParseLine(lines[i], parseTime).Parsed?
    decreases |lines|
  {
    if lines != [] {
      ImportRunStep(s, lines, parseTime);
      var s1 := Ingest(s, lines[0], parseTime).1;
      if ParseLine(lines[0], parseTime).Parsed? {
        ImportStopsAtFirstBadLine(s1, lines[1..], parseTime);
        var r := ImportRun(s1, lines[1..], parseTime).0;
        if r.Aborted? {
          assert lines[r.line + 1] == lines[1..][r.line];
          ParsedPrefixCons(lines, r.line, parseTime);
        }
      }
    }
  }

  /** An import only adds: earlier entries stay first, no chat disappears, and at most one entry per line is kept. */
  lemma {:induction false} ImportOnlyAdds(s: Store, lines: seq<string>, parseTime: string -> Option<int>)
    ensures var s' := ImportRun(s, lines, parseTime).1;
            |s.entries| <= |s'.entries| <= |s.entries| + |lines| && s'.entries[..|s.entries|] == s.entries
            && s.chats.Keys <= s'.chats.Keys
    decreases |lines|
  {
    if lines != [] {
      IngestOnlyAdds(s, lines[0], parseTime);
      var s1 := Ingest(s, lines[0], parseTime).1;
      if !Ingest(s, lines[0], parseTime).0.Failed? {
        ImportOnlyAdds(s1, lines[1..], parseTime);
        var s' := ImportRun(s1, lines[1..], parseTime).1;
        assert s'.entries[..|s.entries|] == s'.entries[..|s1.entries|][..|s.entries|];
      }
    }
  }

  // ---------------------------------------------------------------------------
  // The database the importer writes to

  /** The two collections as mutable state. */
  class Database {
    var chats: map<string, ChatState>
    var entries: seq<Entry>

    function Contents(): Store
      reads this
    {
      Store(chats, entries)
    }

    /** An empty database. */
    constructor ()
      ensures Contents() == Store(map[], [])
    {
      chats, entries := map[], [];
    }

    /** addEntry: add one line; the chat is loaded into a fresh record, updated in place and written back. */
    method AddEntry(line: string, parseTime: string -> Option<int>) returns (outcome: LineOutcome)
      modifies this
      ensures (outcome, Contents()) == Ingest(old(Contents()), line, parseTime)
    {
      var p := ParseLine(line, parseTime);
      if !p.Parsed? {
        return Failed(p);
      }
      var e := p.entry;
      var r := Resolve(chats, e);
      if r.Orphan? {
        return Skipped;
      }
      var chat := new Chat.FromState(r.chat);
      chat.UpdateEntry(e);
      chats := chats[e.chatId := chat.State()];
      entries := entries + [e];
      return Stored(e);
    }

    /** import_data: add the lines in order and stop at the first failure. */
    method Import(lines: seq<string>, parseTime: string -> Option<int>) returns (r: ImportOutcome)
      modifies this
      ensures (r, Contents()) == ImportRun(old(Contents()), lines, parseTime)
    {
      var i := 0;
      while i < |lines|
        invariant 0 <= i <= |lines|
        invariant ImportRun(old(Contents()), lines, parseTime)
               == (Shift(ImportRun(Contents(), lines[i..], parseTime).0, i),
                   ImportRun(Contents(), lines[i..], parseTime).1)
      {
        ghost var before := Contents();
        assert lines[i..][0] == lines[i] && lines[i..][1..] == lines[i + 1..];
        var o := AddEntry(lines[i], parseTime);
        if o.Failed? {
          return Aborted(i, o.reason);
        }
        ShiftShift(ImportRun(Contents(), lines[i + 1..], parseTime).0, 1, i);
        i := i + 1;
      }
      assert lines[i..] == [];
      return Completed;
    }
  }
}
