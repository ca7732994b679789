/**
 * One transcript entry: the record a tab-separated input line becomes, the
 * predicates the chat fold asks of it, and the line parser.
 */
module Entries {
  import opened Wrappers
  import Text

  /** The author value that marks a line written by the customer. */
  const CustomerId: string := "customer"

  /** The documentation host a reply may link to. */
  const DocHost: string := "docs.bitnami.com"

  /** The literal a community chat id contains. */
  const CommunityMark: string := "C"

  /** Where a chat took place. */
  datatype Channel = Community | Zendesk {
    /** The channel name the records and the report carry. */
    function Name(): string {
      match this
      case Community => "community"
      case Zendesk => "zendesk"
    }
  }

  /** One message of a chat. The storage id is not modelled. */
  datatype Entry = Entry(
    chatId: string,
    author: string,
    title: string,
    url: string,
    timestamp: int,
    reply: string,
    channel: Channel)

  /** The entry was written by the customer (exact match on the author). */
  predicate IsCustomer(e: Entry) {
    e.author == CustomerId
  }

  /** The number of `\w+` tokens in the reply. */
  function WordCount(e: Entry): nat {
    Text.WordCount(e.reply)
  }

  /** The reply holds `https://` followed by a word character. */
  predicate HasLink(e: Entry) {
    Text.MatchesLink(e.reply)
  }

  /** The reply mentions the documentation host. */
  predicate HasDocLink(e: Entry) {
    Text.Contains(e.reply, DocHost)
  }

  /** The channel of a chat id: community exactly when the id contains `C`. */
  function ChannelOf(chatId: string): (ch: Channel)
    ensures ch == Community <==> 'C' in chatId
  {
    Text.ContainsChar(chatId, 'C');
    if Text.Contains(chatId, CommunityMark) then Community else Zendesk
  }

  // ---------------------------------------------------------------------------
  // The chat id: the text of the first `[...]` group of the title, as the
  // pattern `\[(.*?)\]` finds it. `.` does not match a newline, and the lazy
  // `.*?` stops at the first `]`.

  /** Position k ends a lazy match begun just before j: s[k] is `]` and s[j..k] holds no `]` and no newline. */
  predicate CloseAt(s: string, j: nat, k: nat) {
    j <= k < |s| && s[k] == ']' && forall m :: j <= m < k ==> s[m] != ']' && s[m] != '\n'
  }

  /** The pattern matches at [i, k]: a `[` at i whose lazy group closes at k. */
  predicate BracketMatch(s: string, i: nat, k: nat) {
    i < |s| && s[i] == '[' && CloseAt(s, i + 1, k)
  }

  /** The first `]` at or after j, unless a newline comes first. */
  function FindClose(s: string, j: nat): (r: Option<nat>)
    requires j <= |s|
    ensures r.Some? ==> CloseAt(s, j, r.value)
    ensures r.None? ==> forall k :: !CloseAt(s, j, k)
    decreases |s| - j
  {
    if j == |s| then None
    else if s[j] == ']' then Some(j)
    else if s[j] == '\n' then None
    else
      var r := FindClose(s, j + 1);
      assert forall k :: CloseAt(s, j, k) ==> CloseAt(s, j + 1, k);
      r
  }

  /** Leftmost match at or after i. */
  function FindBracketFrom(s: string, i: nat): (r: Option<(nat, nat)>)
    requires i <= |s|
    ensures r.Some? ==> i <= r.value.0 && BracketMatch(s, r.value.0, r.value.1)
    ensures r.Some? ==> forall a, k :: i <= a < r.value.0 ==> !BracketMatch(s, a, k)
    ensures r.None? ==> forall a, k :: i <= a ==> !BracketMatch(s, a, k)
    decreases |s| - i
  {
    if i == |s| then None
    else if s[i] == '[' && FindClose(s, i + 1).Some? then Some((i, FindClose(s, i + 1).value))
    else FindBracketFrom(s, i + 1)
  }

  /** A lazy group closes at one place only. */
  lemma CloseAtUnique(s: string, j: nat, k: nat, k': nat)
    requires CloseAt(s, j, k) && CloseAt(s, j, k')
    ensures k == k'
  {
  }

  /**
   * The chat id the title yields: the text strictly inside the leftmost match,
   * or None when the pattern does not match (a fatal input error).
   */
  function ChatIdOf(title: string): (r: Option<string>)
    ensures r.Some? <==> exists i: nat, k: nat :: BracketMatch(title, i, k)
    ensures r.Some? ==> exists i: nat, k: nat :: BracketMatch(title, i, k) && r.value == title[i + 1..k]
                          && forall a: nat, k': nat :: a < i ==> !BracketMatch(title, a, k')
  {
    match FindBracketFrom(title, 0)
    case None => None
    case Some((i, k)) => Some(title[i + 1..k])
  }

  /** The chat id of a title made of a prefix without `[`, a bracketed id and any suffix. */
  lemma ChatIdOfBracketed(pre: string, id: string, post: string)
    requires '[' !in pre
    requires ']' !in id && '\n' !in id
    ensures ChatIdOf(pre + "[" + id + "]" + post) == Some(id)
  {
    var t := pre + "[" + id + "]" + post;
    var i, k := |pre|, |pre| + 1 + |id|;
    assert t[i] == '[' && t[k] == ']';
    assert forall m :: i + 1 <= m < k ==> t[m] == id[m - i - 1];
    assert BracketMatch(t, i, k);
    var r := FindBracketFrom(t, 0);
    assert r.Some?;
    var (a, b) := r.value;
    assert a == i;
    CloseAtUnique(t, i + 1, b, k);
    assert t[i + 1..k] == id;
  }

  // ---------------------------------------------------------------------------
  // Parsing one input line

  /** What addEntry makes of a line before it reaches the store. */
  datatype ParseResult =
    | Parsed(entry: Entry)
      /** Fewer than five tab-separated fields: an error return. */
    | TooFewFields
      /** The title has no `[...]` group: the importer stops (log.Fatalln). */
    | MissingChatId
      /** The timestamp field does not parse: an error return. */
    | BadTimestamp

  /** The tab-separated fields of a line. */
  function Fields(line: string): seq<string> {
    Text.Split(line, '\t')
  }

  /**
   * addEntry's parsing: split on tabs, check the field count, take the chat id
   * from the title, parse the timestamp with `parseTime` (time.Parse with the
   * input layout), trim URL and author, rejoin the reply fields with spaces and
   * classify the channel. The checks happen in this order.
   */
  function ParseLine(line: string, parseTime: string -> Option<int>): (r: ParseResult)
    ensures r.TooFewFields? <==> multiset(line)['\t'] < 4
    ensures r.Parsed? ==> r.entry.channel == ChannelOf(r.entry.chatId)
    ensures r.Parsed? ==> ChatIdOf(r.entry.title) == Some(r.entry.chatId)
    ensures r.Parsed? ==> Text.Trimmed(r.entry.url) && Text.Trimmed(r.entry.author)
  {
    Text.SplitLength(line, '\t');
    var l := Fields(line);
    if |l| < 5 then TooFewFields
    else match ChatIdOf(l[0])
      case None => MissingChatId
      case Some(chatId) =>
        match parseTime(l[3])
        case None => BadTimestamp
        case Some(ts) =>
          Parsed(Entry(
            chatId := chatId,
            author := Text.TrimSpace(l[2]),
            title := l[0],
            url := Text.TrimSpace(l[1]),
            timestamp := ts,
            reply := Text.Join(l[4..], " "),
            channel := ChannelOf(chatId)))
  }

  /** A line laid out from its five fields. */
  function FormatLine(title: string, url: string, author: string, time: string, reply: string): string {
    title + "\t" + (url + "\t" + (author + "\t" + (time + "\t" + reply)))
  }

  /**
   * Parsing a line laid out from well-formed fields gives back those fields:
   * the title raw, URL and author with surrounding white space trimmed, the parsed
   * time, the chat id from the title, and the reply with each tab turned into
   * a space.
   */
  lemma ParseFormatted(title: string, url: string, author: string, time: string, reply: string,
                       parseTime: string -> Option<int>)
    requires '\t' !in title && '\t' !in url && '\t' !in author && '\t' !in time
    requires ChatIdOf(title).Some? && parseTime(time).Some?
    ensures ParseLine(FormatLine(title, url, author, time, reply), parseTime)
         == Parsed(Entry(ChatIdOf(title).value, Text.TrimSpace(author), title, Text.TrimSpace(url), parseTime(time).value,
                         Text.Replace(reply, '\t', ' '), ChannelOf(ChatIdOf(title).value)))
  {
    var l := Fields(FormatLine(title, url, author, time, reply));
    FieldsOfFormatted(title, url, author, time, reply);
    assert l[..4] == [title, url, author, time];
    assert l[4..] == Text.Split(reply, '\t');
    Text.JoinSplitReplace(reply, '\t', ' ');
  }

  /** The fields of a formatted line: the four leading fields, then the pieces of the reply. */
  lemma FieldsOfFormatted(title: string, url: string, author: string, time: string, reply: string)
    requires '\t' !in title && '\t' !in url && '\t' !in author && '\t' !in time
    ensures Fields(FormatLine(title, url, author, time, reply))
         == [title, url, author, time] + Text.Split(reply, '\t')
  {
    var r4 := time + "\t" + reply;
    var r3 := author + "\t" + r4;
    var r2 := url + "\t" + r3;
    Text.SplitCons(time, reply, '\t');
    Text.SplitCons(author, r4, '\t');
    Text.SplitCons(url, r3, '\t');
    Text.SplitCons(title, r2, '\t');
    Glue4(title, url, author, time, Text.Split(reply, '\t'));
  }

  /**
   * Regrouping four leading fields; kept apart because the regrouping is
   * costly to prove next to the split facts above.
   */
  lemma Glue4(a: string, b: string, c: string, d: string, x: seq<string>)
    ensures [a] + ([b] + ([c] + ([d] + x))) == [a, b, c, d] + x
  {
  }

  /** A missing chat id is reported exactly for a line with enough fields whose title has no bracketed id. */
  lemma ParseMissingChatId(line: string, parseTime: string -> Option<int>)
    ensures ParseLine(line, parseTime) == MissingChatId <==>
              multiset(line)['\t'] >= 4 && ChatIdOf(Fields(line)[0]).None?
  {
    Text.SplitLength(line, '\t');
  }

  /** An unparsable timestamp is reported only once the chat id has been found. */
  lemma ParseBadTimestamp(line: string, parseTime: string -> Option<int>)
    ensures ParseLine(line, parseTime) == BadTimestamp <==>
              |Fields(line)| >= 5 && ChatIdOf(Fields(line)[0]).Some?
              && parseTime(Fields(line)[3]).None?
  {
    Text.SplitLength(line, '\t');
  }
}
