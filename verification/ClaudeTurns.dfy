/** The assistant turns kept for one Claude session: a bounded list that loses turns from the front. */
module ClaudeTurns {
  type Content = string

  datatype Limits = Limits(entries: nat, evictBatch: nat, totalBytes: nat, turns: nat, sessionBytes: nat, ttl: int)

  /** What the JSON library decides: whether a text is an acceptable array of blocks, and whether two are the same. */
  datatype Json = Json(wellFormed: Content -> bool, same: (Content, Content) -> bool)

  predicate Acceptable(limits: Limits, json: Json, content: Content) {
    content != "" && |content| <= limits.sessionBytes && json.wellFormed(content)
  }

  function Size(contents: seq<Content>): nat {
    if contents == [] then 0 else |contents[0]| + Size(contents[1..])
  }

  /** All turns in one text. */
  function Joined(contents: seq<Content>): Content {
    if contents == [] then "" else contents[0] + Joined(contents[1..])
  }

  lemma {:induction false} SizeIsBytes(contents: seq<Content>)
    ensures Size(contents) == |Joined(contents)|
  {
    if contents != [] {
      SizeIsBytes(contents[1..]);
    }
  }

  predicate InSession(limits: Limits, contents: seq<Content>) {
    |contents| <= limits.turns && Size(contents) <= limits.sessionBytes
  }

  lemma EmptySession(limits: Limits)
    ensures InSession(limits, [])
  {
  }

  /** The first place from which on the session is within its limits. */
  function Cut(limits: Limits, contents: seq<Content>, from: nat): (k: nat)
    requires from <= |contents|
    ensures from <= k <= |contents| && InSession(limits, contents[k..])
    ensures forall j :: from <= j < k ==> !InSession(limits, contents[j..])
    decreases |contents| - from
  {
    if InSession(limits, contents[from..]) || from == |contents| then from else Cut(limits, contents, from + 1)
  }

  predicate Known(json: Json, contents: seq<Content>, content: Content) {
    exists i :: 0 <= i < |contents| && json.same(contents[i], content)
  }

  function Append(limits: Limits, json: Json, contents: seq<Content>, content: Content): seq<Content> {
    if Known(json, contents, content) then contents
    else (contents + [content])[Cut(limits, contents + [content], 0)..]
  }

  method AppendContent(limits: Limits, json: Json, contents: seq<Content>, content: Content)
    returns (cloned: seq<Content>)
    ensures cloned == Append(limits, json, contents, content)
  {
    cloned := contents;
    for i := 0 to |cloned|
      invariant forall j :: 0 <= j < i ==> !json.same(cloned[j], content)
    {
      if json.same(cloned[i], content) {
        return;
      }
    }
    cloned := cloned + [content];
    ghost var all := cloned;
    ghost var n := 0;
    while |cloned| > limits.turns || Size(cloned) > limits.sessionBytes
      invariant 0 <= n <= |all| && cloned == all[n..]
      invariant Cut(limits, all, 0) == Cut(limits, all, n)
      decreases |cloned|
    {
      // An empty session is within every limit, so there is a turn to drop.
      assert cloned != [];
      cloned := cloned[1..];
      n := n + 1;
    }
  }

  /**
   A new acceptable turn is always kept, as the last of the longest suffix within both limits; a turn that is already
   there changes nothing.
   */
  lemma AppendIsLongest(limits: Limits, json: Json, contents: seq<Content>, content: Content)
    requires limits.turns > 0 && InSession(limits, contents) && Acceptable(limits, json, content)
    ensures var r := Append(limits, json, contents, content);
      && InSession(limits, r)
      && ((exists i :: 0 <= i < |contents| && json.same(contents[i], content)) ==> r == contents)
      && ((forall i :: 0 <= i < |contents| ==> !json.same(contents[i], content)) ==>
            && r != [] && r[|r| - 1] == content
            && r == (contents + [content])[|contents| + 1 - |r|..]
            && forall j :: 0 <= j <= |contents| && InSession(limits, (contents + [content])[j..]) ==>
              |contents| + 1 - j <= |r|)
  {
    var all := contents + [content];
    assert all[|contents|..] == [content];
    assert Size([content]) == |content| + Size([]);
  }
}
