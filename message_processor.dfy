/** `chat/message_processor.py`: one message file becomes a record, or
    nothing when it belongs to another channel or cannot be examined. */
module MessageProcessor {
  import opened PyStr
  import opened Wrappers
  import PyPath
  import opened Patterns
  import opened FileReader

  /** The pseudo-channel that selects every message. */
  const Everything: string := "everything"

  datatype Message = Message(
    author: string,
    content: string,
    timestamp: int,
    hashtags: seq<string>,
    channel: string,
    filePath: string,
    messageId: string,
    replyTo: Option<string>)

  /** What the file system yields for one path: the text `read_file`
      returns ("" when the file cannot be read or decoded) and the
      modification time in seconds. */
  datatype FileData = FileData(text: string, mtime: int)

  /** The directory a file sits in names its channel. */
  function DirChannel(filePath: string): (r: string)
    ensures '/' !in r
  {
    PyPath.Basename(PyPath.Dirname(filePath))
  }

  /** An in-file `Channel:` line (case-sensitive) overrides the directory. */
  function ChannelOf(content: string, filePath: string): (r: string)
    ensures (exists i :: MatchesAt(content, i, "Channel:", false)) ==> r != [] && '\n' !in r
    ensures (forall i :: !MatchesAt(content, i, "Channel:", false)) ==> r == DirChannel(filePath)
  {
    match SearchGroup(content, "Channel:", false)
    case Some(g) => g
    case None => DirChannel(filePath)
  }

  /** `Reply-To:` (case-sensitive), if present. */
  function ReplyTo(content: string): (r: Option<string>)
    ensures r.Some? <==> exists i :: MatchesAt(content, i, "Reply-To:", false)
    ensures r.Some? ==> r.value != [] && '\n' !in r.value
  {
    SearchGroup(content, "Reply-To:", false)
  }

  /** The text with every metadata match removed, then stripped. */
  function Body(content: string): (r: string)
    ensures r == [] || (!IsSpace(r[0]) && !IsSpace(r[|r| - 1]))
  {
    Strip(StripMeta(content))
  }

  /** With several `Channel:` lines, the leftmost one names the channel. */
  lemma ChannelIsLeftmostGroup(content: string, filePath: string, i: nat)
    requires MatchesAt(content, i, "Channel:", false)
    requires forall k: nat :: k < i ==> !MatchesAt(content, k, "Channel:", false)
    ensures var g := Tail(content, i + 8).value;
      ChannelOf(content, filePath) == content[g.start..g.end]
  {
    SearchGroupLeftmost(content, "Channel:", false, i);
  }

  /** With several `Reply-To:` lines, the leftmost one is the reply. */
  lemma ReplyToIsLeftmostGroup(content: string, i: nat)
    requires MatchesAt(content, i, "Reply-To:", false)
    requires forall k: nat :: k < i ==> !MatchesAt(content, k, "Reply-To:", false)
    ensures var g := Tail(content, i + 9).value;
      ReplyTo(content) == Some(content[g.start..g.end])
  {
    SearchGroupLeftmost(content, "Reply-To:", false, i);
  }

  /** The body drops the first metadata match whole, keeps the text before
      it, and goes on after the match's line content. */
  lemma BodyDropsMatch(content: string, j: nat, e: nat)
    requires j <= |content|
    requires forall p :: 0 <= p < j ==> MetaMatchAt(content, p).None?
    requires MetaMatchAt(content, j) == Some(e)
    ensures Body(content) == Strip(content[..j] + StripMetaFrom(content, e))
  {
    StripMetaDeletes(content, 0, j, e);
  }

  /** Without metadata matches the body is the whole text, stripped. */
  lemma BodyWithoutMetadata(content: string)
    requires forall p :: 0 <= p < |content| ==> MetaMatchAt(content, p).None?
    ensures Body(content) == Strip(content)
  {
    StripMetaNoMatch(content);
  }

  /** The base name without its last extension. */
  function MessageId(filePath: string): (r: string)
    ensures r + PyPath.Ext(PyPath.Basename(filePath)) == PyPath.Basename(filePath)
  {
    PyPath.Splitext(PyPath.Basename(filePath)).0
  }

  /** `process_file(file_path, repo_path, target_channel)`. `data` is None
      when `os.path.getmtime` raises, which the function reports as None. */
  function ProcessFile(filePath: string, targetChannel: string, data: Option<FileData>): (r: Option<Message>)
    ensures r.Some? <==>
      data.Some? && (targetChannel == Everything || ChannelOf(data.value.text, filePath) == targetChannel)
    ensures r.Some? ==>
      var text := data.value.text;
      && r.value.author == ExtractMetadata(text).author
      && r.value.hashtags == Hashtags(text)
      && r.value.channel == ChannelOf(text, filePath)
      && r.value.replyTo == ReplyTo(text)
      && r.value.content == Body(text)
      && r.value.filePath == filePath
      && r.value.timestamp == data.value.mtime
      && r.value.messageId == MessageId(filePath)
  {
    match data
    case None => None
    case Some(d) =>
      var meta := ExtractMetadata(d.text);
      var channel := ChannelOf(d.text, filePath);
      if targetChannel == Everything || channel == targetChannel then
        Some(Message(meta.author, Body(d.text), d.mtime, meta.hashtags, channel,
                     filePath, MessageId(filePath), ReplyTo(d.text)))
      else None
  }

  /** An unreadable or empty file is still a message: default author, no
      hashtags, empty body, channel from its directory. */
  lemma EmptyContent(filePath: string, mtime: int)
    ensures var r := ProcessFile(filePath, Everything, Some(FileData("", mtime)));
      && r.Some?
      && r.value.author == DefaultAuthor
      && r.value.hashtags == []
      && r.value.content == ""
      && r.value.channel == DirChannel(filePath)
      && r.value.replyTo == None
  {
    assert forall i :: !MatchesAt("", i, "Author:", true);
    assert forall i :: !MatchesAt("", i, "Channel:", false);
  }
}
