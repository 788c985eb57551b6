/** The clean-up both handlers apply to generated text before parsing it on
    the relaxed path: delete every "```json", then every "```", then trim. */
module Fences {
  import opened TextOps

  const JSON_FENCE: string := "```json"
  const FENCE: string := "```"

  /** `text.replace(/```json/g, '').replace(/```/g, '').trim()` */
  function Clean(text: string): (r: string)
    ensures !Includes(r, FENCE)
    ensures r == [] || (!IsSpace(r[0]) && !IsSpace(r[|r| - 1]))
  {
    var unfenced := RemoveAll(RemoveAll(text, JSON_FENCE), FENCE);
    RemoveAllTripleLeavesNone(RemoveAll(text, JSON_FENCE), '`');
    assert FENCE == ['`', '`', '`'];
    var r := Trim(unfenced);
    if Includes(r, FENCE) then
      IncludesTransitive(unfenced, r, FENCE);
      r
    else r
  }

  /** Every "```json" contains a "```". */
  lemma JsonFenceHasFence()
    ensures Includes(JSON_FENCE, FENCE)
  {
    assert OccursAt(JSON_FENCE, FENCE, 0);
    IncludesIff(JSON_FENCE, FENCE);
  }

  /** Cleaning a cleaned text changes nothing. */
  lemma CleanIdempotent(text: string)
    ensures Clean(Clean(text)) == Clean(text)
  {
    var c := Clean(text);
    if Includes(c, JSON_FENCE) {
      JsonFenceHasFence();
      IncludesTransitive(c, JSON_FENCE, FENCE);
    }
    RemoveAllAbsent(c, JSON_FENCE);
    RemoveAllAbsent(c, FENCE);
    TrimFixed(c);
  }

  /** Text without backticks is only trimmed. */
  lemma CleanPlain(text: string)
    requires '`' !in text
    ensures Clean(text) == Trim(text)
  {
    RemoveAllAfterPlainPrefix(text, [], JSON_FENCE);
    RemoveAllAfterPlainPrefix(text, [], FENCE);
    assert text + [] == text;
  }

  /** The two deletions strip the block markers and keep what they enclose. */
  lemma UnfenceBlock(inner: string)
    requires '`' !in inner
    ensures RemoveAll(RemoveAll(JSON_FENCE + inner + FENCE, JSON_FENCE), FENCE) == inner
  {
    var text := JSON_FENCE + inner + FENCE;
    assert text == JSON_FENCE + (inner + FENCE);
    assert text[..|JSON_FENCE|] == JSON_FENCE;
    assert text[|JSON_FENCE|..] == inner + FENCE;
    // the first pass deletes the opening marker and leaves the closing one
    RemoveAllAfterPlainPrefix(inner, FENCE, JSON_FENCE);
    assert RemoveAll(text, JSON_FENCE) == inner + FENCE;
    // the second pass deletes the closing one
    RemoveAllAfterPlainPrefix(inner, FENCE, FENCE);
    assert FENCE[|FENCE|..] == [];
    assert inner + [] == inner;
  }

  /** Trimming drops one line feed on each side of a trimmed text. */
  lemma TrimLineFeeds(body: string)
    requires body == [] || (!IsSpace(body[0]) && !IsSpace(body[|body| - 1]))
    ensures Trim("\n" + body + "\n") == body
  {
    var inner := "\n" + body + "\n";
    assert inner[1..] == body + "\n";
    if body == [] {
      assert inner[1..][1..] == [];
      assert TrimStart(inner) == [];
    } else {
      assert TrimStart(inner) == body + "\n";
      assert (body + "\n")[..|body|] == body;
    }
  }

  /** A JSON text the model wrapped in a "```json" block comes out bare,
      provided the text itself holds no backtick and is already trimmed. */
  lemma CleanUnwrapsBlock(body: string)
    requires '`' !in body
    requires body == [] || (!IsSpace(body[0]) && !IsSpace(body[|body| - 1]))
    ensures Clean(JSON_FENCE + "\n" + body + "\n" + FENCE) == body
  {
    var inner := "\n" + body + "\n";
    assert JSON_FENCE + "\n" + body + "\n" + FENCE == JSON_FENCE + inner + FENCE;
    UnfenceBlock(inner);
    TrimLineFeeds(body);
  }
}
