/** `chat/file_reader.py`: the author and hashtags of a message text, and
    the display cut of long messages. Reading and decoding the file
    (`read_file`) happens outside: the text is an input. */
module FileReader {
  import opened PyStr
  import opened Wrappers
  import opened Patterns

  const DefaultAuthor: string := "Unknown"

  datatype Metadata = Metadata(author: string, hashtags: seq<string>)

  ghost predicate HasAuthorLine(content: string) {
    exists i :: MatchesAt(content, i, "Author:", true)
  }

  /** `extract_metadata(content)`: the group of the first case-insensitive
      `Author:\s*(.+)` match, or "Unknown", and every `#\w+` in order. */
  function ExtractMetadata(content: string): (m: Metadata)
    ensures m.hashtags == Hashtags(content)
    ensures m.author != [] && '\n' !in m.author
    ensures !HasAuthorLine(content) ==> m.author == DefaultAuthor
  {
    var a := SearchGroup(content, "Author:", true);
    Metadata(if a.Some? then a.value else DefaultAuthor, Hashtags(content))
  }

  /** The author is the group of the leftmost match, whatever its case. */
  lemma AuthorIsLeftmostGroup(content: string, i: nat)
    requires MatchesAt(content, i, "Author:", true)
    requires forall k: nat :: k < i ==> !MatchesAt(content, k, "Author:", true)
    ensures var g := Tail(content, i + 7).value;
      ExtractMetadata(content).author == content[g.start..g.end]
  {
    SearchGroupLeftmost(content, "Author:", true, i);
  }

  /** A text that opens with `Author:` (any case) names as author the line
      that follows the keyword's whitespace, blank lines included. */
  lemma AuthorAfterKeyword(content: string, n: nat)
    requires LitAt(content, 0, "Author:", true)
    requires 7 <= n < |content| && !IsSpace(content[n])
    requires forall j :: 7 <= j < n ==> IsSpace(content[j])
    ensures ExtractMetadata(content).author == content[n..LineEnd(content, n)]
  {
    TailAt(content, 7, n);
    assert Tail(content, 7) == Some(Span(n, LineEnd(content, n)));
    assert MatchesAt(content, 0, "Author:", true);
    AuthorIsLeftmostGroup(content, 0);
  }

  /** `truncate_message(content, max_length)`: Python's `content[:max_length]`
      plus an ellipsis when the text is longer than the limit. */
  function TruncateMessage(content: string, maxLength: int): (r: (string, bool))
    ensures r.1 <==> |content| > maxLength
    ensures !r.1 ==> r.0 == content
    ensures r.1 && maxLength >= 0 ==>
      |r.0| == maxLength + 3 && r.0[..maxLength] == content[..maxLength] && r.0[maxLength..] == "..."
  {
    if |content| <= maxLength then (content, false)
    else (Take(content, maxLength) + "...", true)
  }
}
