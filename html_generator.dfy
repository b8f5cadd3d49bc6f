/** `chat/html_generator.py`, lines 15-62 of `generate_chat_html`: the
    channel navigation, the filter, sort and cut of the processed files,
    and the per-message display fields. The HTML templates and `strftime`
    are outside the model; a page is the record of the values handed to
    them. */
module HtmlGenerator {
  import opened PyStr
  import opened Wrappers
  import PyPath
  import opened FileSystem
  import opened FileReader
  import opened MessageProcessor
  import opened ChannelManager

  // ---------------------------------------------------------------------
  // Channel navigation

  const NavOpen: string := "<div class=\"channel-nav\">"
  const NavClose: string := "</div>"
  const LinkHead: string := "<a href=\"/chat/"
  const LinkMid: string := ".html\" class=\"channel-link "

  /** One navigation link; the class list carries `active` exactly when
      the channel is the current one. */
  function NavLink(ch: string, current: string): (r: string)
    ensures StartsWith(r, LinkHead + ch + LinkMid)
    ensures EndsWith(r, "\">" + ch + "</a>")
    ensures var k := |LinkHead + ch + LinkMid|; k < |r| && (r[k] == 'a' <==> ch == current)
  {
    var pre := LinkHead + ch + LinkMid;
    var post := "\">" + ch + "</a>";
    var mid := if ch == current then "active" else "";
    Framed(pre, mid, post);
    pre + mid + post
  }

  /** `pre + mid + post` starts with `pre`, ends with `post`, and its
      character after `pre` is the first of `mid`, or of `post`. */
  lemma Framed(pre: string, mid: string, post: string)
    requires post != []
    ensures StartsWith(pre + mid + post, pre) && EndsWith(pre + mid + post, post)
    ensures (pre + mid + post)[|pre|] == if mid != [] then mid[0] else post[0]
  {
    var r := pre + mid + post;
    assert r[..|pre|] == pre;
    assert r[|r| - |post|..] == post;
  }

  /** The links of `channels`, one after the other, in the order given. */
  function NavBody(channels: seq<string>, current: string): string {
    if channels == [] then []
    else NavBody(channels[..|channels| - 1], current) + NavLink(channels[|channels| - 1], current)
  }

  lemma NavBodyStep(channels: seq<string>, current: string, i: nat)
    requires i < |channels|
    ensures NavBody(channels[..i + 1], current) == NavBody(channels[..i], current) + NavLink(channels[i], current)
  {
    assert channels[..i + 1][..i] == channels[..i];
  }

  /** The `channel_nav += …` loop. */
  method BuildChannelNav(channels: seq<string>, current: string) returns (nav: string)
    ensures nav == NavOpen + NavBody(channels, current) + NavClose
  {
    var links := "";
    var i := 0;
    while i < |channels|
      invariant 0 <= i <= |channels|
      invariant links == NavBody(channels[..i], current)
    {
      NavBodyStep(channels, current, i);
      links := links + NavLink(channels[i], current);
      i := i + 1;
    }
    assert channels[..i] == channels;
    nav := NavOpen + links + NavClose;
  }

  // ---------------------------------------------------------------------
  // Filter, sort and cut

  /** `[msg for msg in messages if msg is not None]`. */
  function Present(results: seq<Option<Message>>): (r: seq<Message>)
    ensures |r| <= |results|
  {
    if results == [] then []
    else
      var last := results[|results| - 1];
      Present(results[..|results| - 1]) + (if last.Some? then [last.value] else [])
  }

  /** A record survives the filter exactly when some file produced it. */
  lemma {:induction false} PresentExact(results: seq<Option<Message>>, m: Message)
    ensures m in Present(results) <==> Some(m) in results
  {
    if results != [] {
      var init := results[..|results| - 1];
      PresentExact(init, m);
      assert results == init + [results[|results| - 1]];
    }
  }

  /** The filter keeps the input order: filtering a concatenation
      concatenates the filtered parts. */
  lemma {:induction false} PresentAppend(xs: seq<Option<Message>>, ys: seq<Option<Message>>)
    ensures Present(xs + ys) == Present(xs) + Present(ys)
    decreases |ys|
  {
    if ys == [] {
      assert xs + ys == xs;
    } else {
      var init := ys[..|ys| - 1];
      PresentAppend(xs, init);
      assert (xs + ys)[..|xs + ys| - 1] == xs + init;
      assert (xs + ys)[|xs + ys| - 1] == ys[|ys| - 1];
    }
  }

  /** The order of `messages.sort(key=lambda x: (-timestamp, file_path))`:
      newer first, then by path. */
  predicate Before(x: Message, y: Message) {
    x.timestamp > y.timestamp || (x.timestamp == y.timestamp && StrLe(x.filePath, y.filePath))
  }

  lemma BeforeTotal(x: Message, y: Message)
    ensures Before(x, y) || Before(y, x)
  {
    StrLeTotal(x.filePath, y.filePath);
  }

  lemma BeforeTransitive(x: Message, y: Message, z: Message)
    requires Before(x, y) && Before(y, z)
    ensures Before(x, z)
  {
    if x.timestamp == y.timestamp == z.timestamp {
      StrLeTransitive(x.filePath, y.filePath, z.filePath);
    }
  }

  predicate SortedMessages(s: seq<Message>) {
    forall i, j :: 0 <= i < j < |s| ==> Before(s[i], s[j])
  }

  method Swap(a: array<Message>, i: nat, j: nat)
    requires i < a.Length && j < a.Length
    modifies a
    ensures a[..] == old(a[..])[i := old(a[j])][j := old(a[i])]
    ensures multiset(a[..]) == multiset(old(a[..]))
  {
    var t := a[i];
    a[i] := a[j];
    a[j] := t;
  }

  /** The in-place `list.sort`, as an insertion sort by adjacent swaps:
      the result is ordered and a permutation of the input. */
  method SortMessages(a: array<Message>)
    modifies a
    ensures SortedMessages(a[..])
    ensures multiset(a[..]) == multiset(old(a[..]))
  {
    var i := 0;
    while i < a.Length
      invariant 0 <= i <= a.Length
      invariant SortedMessages(a[..i])
      invariant multiset(a[..]) == multiset(old(a[..]))
    {
      var j := i;
      while j > 0 && !Before(a[j - 1], a[j])
        invariant 0 <= j <= i
        invariant multiset(a[..]) == multiset(old(a[..]))
        invariant forall p, q :: 0 <= p < q <= i && q != j ==> Before(a[p], a[q])
      {
        BeforeTotal(a[j - 1], a[j]);
        Swap(a, j - 1, j);
        j := j - 1;
      }
      forall p | 0 <= p < j ensures Before(a[p], a[j]) {
        if p < j - 1 { BeforeTransitive(a[p], a[j - 1], a[j]); }
      }
      i := i + 1;
    }
    assert a[..] == a[..a.Length];
  }

  predicate DistinctFilePaths(s: seq<Message>) {
    forall i, j :: 0 <= i < j < |s| ==> s[i].filePath != s[j].filePath
  }

  /** Two sorted arrangements of the same records with distinct paths
      start with the same record. */
  lemma SortedSameHead(a: seq<Message>, b: seq<Message>)
    requires SortedMessages(a) && SortedMessages(b) && multiset(a) == multiset(b)
    requires DistinctFilePaths(a) && a != [] && b != []
    ensures a[0] == b[0]
  {
    var x, y := a[0], b[0];
    assert x in multiset(b) && y in multiset(a);
    var kb :| 0 <= kb < |b| && b[kb] == x;
    var ka :| 0 <= ka < |a| && a[ka] == y;
    assert Before(y, x) by { if kb > 0 { assert Before(b[0], b[kb]); } }
    assert Before(x, y) by { if ka > 0 { assert Before(a[0], a[ka]); } }
    if x.filePath != y.filePath {
      StrLtAsymmetric(x.filePath, y.filePath);
    }
    assert ka == 0;
  }

  /** Dropping a common first record keeps the multisets equal. */
  lemma SameTails(a: seq<Message>, b: seq<Message>)
    requires a != [] && b != [] && a[0] == b[0] && multiset(a) == multiset(b)
    ensures multiset(a[1..]) == multiset(b[1..])
  {
    assert a == [a[0]] + a[1..] && b == [b[0]] + b[1..];
    assert multiset(a[1..]) == multiset(a) - multiset{a[0]};
    assert multiset(b[1..]) == multiset(b) - multiset{b[0]};
  }

  lemma SortedTail(a: seq<Message>)
    requires SortedMessages(a) && DistinctFilePaths(a) && a != []
    ensures SortedMessages(a[1..]) && DistinctFilePaths(a[1..])
  {
    assert forall i :: 0 <= i < |a| - 1 ==> a[1..][i] == a[i + 1];
  }

  /** With distinct paths the key order is strict, so the sorted order is
      the only one: any two sorted arrangements of the same records agree. */
  lemma {:induction false} SortedUnique(a: seq<Message>, b: seq<Message>)
    requires SortedMessages(a) && SortedMessages(b) && multiset(a) == multiset(b)
    requires DistinctFilePaths(a)
    ensures a == b
    decreases |a|
  {
    assert |a| == |multiset(a)| == |multiset(b)| == |b|;
    if a != [] {
      SortedSameHead(a, b);
      SameTails(a, b);
      SortedTail(a);
      assert SortedMessages(b[1..]) by {
        assert forall i :: 0 <= i < |b| - 1 ==> b[1..][i] == b[i + 1];
      }
      SortedUnique(a[1..], b[1..]);
      assert a == [a[0]] + a[1..] && b == [b[0]] + b[1..];
    }
  }

  /** Filter, sort, then `messages[:max_messages]`. `sorted` is the whole
      sorted list, `shown` its first `max_messages` records (with Python's
      end-relative reading of a negative limit). */
  method AggregateMessages(results: seq<Option<Message>>, maxMessages: int) returns (sorted: seq<Message>, shown: seq<Message>)
    ensures SortedMessages(sorted) && multiset(sorted) == multiset(Present(results))
    ensures shown == Take(sorted, maxMessages)
    ensures maxMessages >= 0 ==> |shown| == if maxMessages <= |sorted| then maxMessages else |sorted|
    ensures multiset(shown) <= multiset(Present(results))
    ensures forall i, j :: 0 <= i < |shown| <= j < |sorted| ==> Before(shown[i], sorted[j])
  {
    var present := Present(results);
    var a := new Message[|present|](i requires 0 <= i < |present| => present[i]);
    assert a[..] == present;
    SortMessages(a);
    sorted := a[..];
    shown := Take(sorted, maxMessages);
    assert sorted == shown + sorted[|shown|..];
  }

  // ---------------------------------------------------------------------
  // Per-message display fields

  /** The values handed to the message template. `timestamp` stays in
      seconds: its `strftime` rendering is not modelled. */
  datatype MessageView = MessageView(
    author: string,
    content: string,
    fullContent: string,
    expandLink: string,
    timestamp: int,
    hashtags: string,
    messageId: string,
    replyClass: string,
    replyTo: string)

  const ExpandHead: string := "<a href=\"#\" class=\"expand-link\" data-message-id=\""
  const ShowMore: string := "Show More"

  /** `msg.get('reply_to')` is truthy. */
  predicate IsReply(m: Message) { m.replyTo.Some? && m.replyTo.value != [] }

  /** The "Show More" link of message number `idx`; its text is empty
      when the message was not cut. */
  function ExpandLink(idx: nat, truncated: bool): string {
    ExpandHead + NatToString(idx) + "\">" + (if truncated then ShowMore else "") + "</a>"
  }

  lemma ExpandLinkShape(idx: nat, truncated: bool)
    ensures StartsWith(ExpandLink(idx, truncated), ExpandHead + NatToString(idx) + "\">")
    ensures EndsWith(ExpandLink(idx, truncated), ShowMore + "</a>") <==> truncated
  {
    var pre := ExpandHead + NatToString(idx) + "\">";
    var r := ExpandLink(idx, truncated);
    assert r[..|pre|] == pre;
    if truncated {
      assert r[|r| - |ShowMore + "</a>"|..] == ShowMore + "</a>";
    } else {
      assert r[|r| - 5] == '>';
      assert (ShowMore + "</a>")[8] == 'e';
    }
  }

  /** The hidden full text of a cut message; empty otherwise. */
  function FullContent(idx: nat, content: string, truncated: bool): string {
    if truncated then
      "<div class=\"full-message\" id=\"full-message-" + NatToString(idx) + "\" style=\"display: none;\">"
        + content + "</div>"
    else ""
  }

  lemma FullContentShape(idx: nat, content: string, truncated: bool)
    ensures FullContent(idx, content, truncated) != [] <==> truncated
    ensures truncated ==> EndsWith(FullContent(idx, content, truncated), content + "</div>")
  {
    if truncated {
      var r := FullContent(idx, content, truncated);
      assert r[|r| - |content + "</div>"|..] == content + "</div>";
    }
  }

  /** The "Replying to" line of a reply; empty otherwise. */
  function ReplyMarkup(m: Message): string {
    if IsReply(m) then "<div class=\"reply-to\">Replying to: " + m.replyTo.value + "</div>" else ""
  }

  lemma ReplyMarkupShape(m: Message)
    ensures ReplyMarkup(m) != [] <==> IsReply(m)
    ensures IsReply(m) ==> EndsWith(ReplyMarkup(m), m.replyTo.value + "</div>")
  {
    if IsReply(m) {
      var r := ReplyMarkup(m);
      var v := m.replyTo.value;
      assert r[|r| - |v + "</div>"|..] == v + "</div>";
    }
  }

  /** The fields of message number `idx` on the page. */
  function RenderMessage(idx: nat, m: Message, maxLength: int): MessageView {
    var (shown, truncated) := TruncateMessage(m.content, maxLength);
    MessageView(
      m.author, shown, FullContent(idx, m.content, truncated), ExpandLink(idx, truncated),
      m.timestamp, Join(" ", m.hashtags), m.messageId,
      if IsReply(m) then "reply" else "", ReplyMarkup(m))
  }

  /** What the page shows for message number `idx`: the cut text, a
      "Show More" link and the hidden full text exactly when the text was
      cut, the reply marker exactly for replies, and the other fields as
      they are. */
  lemma RenderMessageFields(idx: nat, m: Message, maxLength: int)
    ensures var v := RenderMessage(idx, m, maxLength);
      && v.content == TruncateMessage(m.content, maxLength).0
      && (EndsWith(v.expandLink, ShowMore + "</a>") <==> |m.content| > maxLength)
      && StartsWith(v.expandLink, ExpandHead + NatToString(idx) + "\">")
      && (v.fullContent != [] <==> |m.content| > maxLength)
      && (|m.content| > maxLength ==> EndsWith(v.fullContent, m.content + "</div>"))
      && (v.replyClass == "reply" <==> IsReply(m)) && (v.replyClass == "" <==> !IsReply(m))
      && (v.replyTo != [] <==> IsReply(m))
      && v.author == m.author && v.timestamp == m.timestamp && v.messageId == m.messageId
  {
    var truncated := TruncateMessage(m.content, maxLength).1;
    ExpandLinkShape(idx, truncated);
    FullContentShape(idx, m.content, truncated);
    ReplyMarkupShape(m);
  }

  /** The `for idx, msg in enumerate(messages)` loop. */
  method RenderMessages(msgs: seq<Message>, maxLength: int) returns (views: seq<MessageView>)
    ensures |views| == |msgs|
    ensures forall i :: 0 <= i < |msgs| ==> views[i] == RenderMessage(i, msgs[i], maxLength)
  {
    views := [];
    var i := 0;
    while i < |msgs|
      invariant 0 <= i <= |msgs|
      invariant views == Rendered(msgs, maxLength, i)
    {
      views := views + [RenderMessage(i, msgs[i], maxLength)];
      i := i + 1;
    }
    forall k | 0 <= k < |msgs| ensures views[k] == RenderMessage(k, msgs[k], maxLength) {
      RenderedAt(msgs, maxLength, |msgs|, k);
    }
  }

  /** The first `n` rendered messages. */
  function Rendered(msgs: seq<Message>, maxLength: int, n: nat): (r: seq<MessageView>)
    requires n <= |msgs|
    ensures |r| == n
  {
    if n == 0 then [] else Rendered(msgs, maxLength, n - 1) + [RenderMessage(n - 1, msgs[n - 1], maxLength)]
  }

  lemma {:induction false} RenderedAt(msgs: seq<Message>, maxLength: int, n: nat, k: nat)
    requires k < n <= |msgs|
    ensures Rendered(msgs, maxLength, n)[k] == RenderMessage(k, msgs[k], maxLength)
  {
    var a := Rendered(msgs, maxLength, n - 1);
    var last := RenderMessage(n - 1, msgs[n - 1], maxLength);
    assert Rendered(msgs, maxLength, n) == a + [last];
    if k < n - 1 {
      assert (a + [last])[k] == a[k];
      RenderedAt(msgs, maxLength, n - 1, k);
    }
  }

  // ---------------------------------------------------------------------
  // The page

  /** What `os.path.getmtime` and `read_file` give for a path: `None`
      when nothing is stored there. Walked paths are always files. */
  function FileDataOf(s: seq<Entry>, p: string): (r: Option<FileData>)
    ensures r.Some? <==> IsFile(s, p)
  {
    match Find(s, p)
    case Some(File(_, text, mtime)) => Some(FileData(text, mtime))
    case _ => None
  }

  /** `pool.map(process_func, file_paths)`: one result per path, in order. */
  function ProcessAll(s: seq<Entry>, paths: seq<string>, channel: string): (r: seq<Option<Message>>)
    ensures |r| == |paths|
    ensures forall i :: 0 <= i < |paths| ==> r[i] == ProcessFile(paths[i], channel, FileDataOf(s, paths[i]))
  {
    seq(|paths|, i requires 0 <= i < |paths| => ProcessFile(paths[i], channel, FileDataOf(s, paths[i])))
  }

  /** The values the page template receives. */
  datatype Page = Page(
    channelNav: string,
    messages: seq<MessageView>,
    messageCount: nat,
    title: string,
    currentChannel: string)

  /** `generate_chat_html` up to the template fill-in. */
  method GenerateChatHtml(fs: Tree, repoPath: string, channel: string, maxMessages: int,
                          maxMessageLength: int, title: string) returns (r: Result<Page>)
    requires fs.Valid()
    modifies fs
    ensures fs.Valid()
    ensures r.Ok? ==> r.value.messageCount == |r.value.messages|
    ensures r.Ok? && maxMessages >= 0 ==> r.value.messageCount <= maxMessages
    ensures r.Ok? ==> r.value.title == title + " - #" + channel && r.value.currentChannel == channel
    ensures r.Ok? ==> forall i :: 0 <= i < |r.value.messages| ==>
      StartsWith(r.value.messages[i].expandLink, ExpandHead + NatToString(i) + "\">")
  {
    var channels := GetAvailableChannels(fs, repoPath);
    if channels.Err? {
      return Err(channels.error);
    }
    var nav := BuildChannelNav(channels.value, channel);
    var files := GetChannelFiles(fs, MessageDir(repoPath), channel);
    if files.Err? {
      return Err(files.error);
    }
    var results := ProcessAll(fs.entries, files.value, channel);
    var sorted, shown := AggregateMessages(results, maxMessages);
    var views := RenderMessages(shown, maxMessageLength);
    forall i | 0 <= i < |views|
      ensures StartsWith(views[i].expandLink, ExpandHead + NatToString(i) + "\">")
    {
      RenderMessageFields(i, shown[i], maxMessageLength);
    }
    r := Ok(Page(nav, views, |shown|, title + " - #" + channel, channel));
  }
}
