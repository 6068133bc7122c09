/** From the text of a language model to a validated decision. */
module Parsers {
  import opened Options

  datatype Decision = Decision(analysis: string, action: string, command: string, reason: string, confidence: real)

  /**
   The JSON library: `decode` is what unmarshalling into a decision yields, if it succeeds, with absent fields empty or
   zero; `isObject` says whether unmarshalling into an arbitrary object succeeds.
   */
  datatype Json = Json(decode: string -> Option<Decision>, isObject: string -> bool)

  // ----- strings

  predicate IsSpace(c: char) {
    || '\t' <= c <= '\r' || c == ' ' || c == '\U{0085}' || c == '\U{00A0}' || c == '\U{1680}'
    || '\U{2000}' <= c <= '\U{200A}' || c == '\U{2028}' || c == '\U{2029}' || c == '\U{202F}'
    || c == '\U{205F}' || c == '\U{3000}'
  }

  function Leading(s: string): (n: nat)
    ensures n <= |s|
    ensures forall k :: 0 <= k < n ==> IsSpace(s[k])
    ensures n < |s| ==> !IsSpace(s[n])
  {
    if s == "" || !IsSpace(s[0]) then 0 else 1 + Leading(s[1..])
  }

  function Trailing(s: string): (n: nat)
    ensures n <= |s|
    ensures forall k :: |s| - n <= k < |s| ==> IsSpace(s[k])
    ensures n < |s| ==> !IsSpace(s[|s| - n - 1])
  {
    if s == "" || !IsSpace(s[|s| - 1]) then 0 else 1 + Trailing(s[..|s| - 1])
  }

  function TrimLeft(s: string): string {
    s[Leading(s)..]
  }

  function TrimRight(s: string): string {
    s[..|s| - Trailing(s)]
  }

  function TrimSpace(s: string): string {
    TrimRight(TrimLeft(s))
  }

  function TrimPrefix(s: string, prefix: string): string {
    if prefix <= s then s[|prefix|..] else s
  }

  predicate EndsWith(s: string, suffix: string) {
    |suffix| <= |s| && s[|s| - |suffix|..] == suffix
  }

  function TrimSuffix(s: string, suffix: string): string {
    if EndsWith(s, suffix) then s[..|s| - |suffix|] else s
  }

  function Index(s: string, c: char): (i: int)
    ensures -1 <= i < |s|
    ensures i == -1 ==> forall k :: 0 <= k < |s| ==> s[k] != c
    ensures i >= 0 ==> s[i] == c && forall k :: 0 <= k < i ==> s[k] != c
  {
    if s == "" then -1
    else if s[0] == c then 0
    else
      var i := Index(s[1..], c);
      if i < 0 then -1 else i + 1
  }

  function LastIndex(s: string, c: char): (i: int)
    ensures -1 <= i < |s|
    ensures i == -1 ==> forall k :: 0 <= k < |s| ==> s[k] != c
    ensures i >= 0 ==> s[i] == c && forall k :: i < k < |s| ==> s[k] != c
  {
    if s == "" then -1
    else if s[|s| - 1] == c then |s| - 1
    else LastIndex(s[..|s| - 1], c)
  }

  function LowerChar(c: char): char {
    if 'A' <= c <= 'Z' then 'a' + (c - 'A') else c
  }

  /** Lower case, for the letters that can occur in an action name. */
  function ToLower(s: string): (r: string)
    ensures |r| == |s|
  {
    seq(|s|, i requires 0 <= i < |s| => LowerChar(s[i]))
  }

  /** Something else than blanks. */
  ghost predicate HasText(s: string) {
    exists k :: 0 <= k < |s| && !IsSpace(s[k])
  }

  /** Among the first 128 characters, the blanks are the space and the five control characters from tab to return. */
  lemma AsciiBlanks(c: char)
    requires c as int < 128
    ensures IsSpace(c) <==> c == ' ' || 9 <= c as int <= 13
  {
  }

  /** What trimming takes off is blank. */
  lemma TrimSpaceTakes(s: string) returns (i: nat)
    ensures i + |TrimSpace(s)| <= |s| && TrimSpace(s) == s[i..i + |TrimSpace(s)|]
    ensures forall k :: 0 <= k < i || i + |TrimSpace(s)| <= k < |s| ==> IsSpace(s[k])
    ensures TrimSpace(s) == "" <==> !HasText(s)
  {
    i := Leading(s);
    var t := TrimLeft(s);
    assert forall k :: 0 <= k < |t| ==> t[k] == s[i + k];
    if i < |s| {
      assert t[0] == s[i] && !IsSpace(s[i]);
    }
  }

  /** From position `i` on, `s` has the lower-case word in letters of either case, with nothing but blanks around it. */
  ghost predicate SpeltAt(s: string, word: string, i: nat) {
    && i + |word| <= |s|
    && (forall k :: 0 <= k < i || i + |word| <= k < |s| ==> IsSpace(s[k]))
    && (forall k :: 0 <= k < |word| ==> s[i + k] == word[k] || s[i + k] as int + 32 == word[k] as int)
  }

  ghost predicate Says(s: string, word: string) {
    exists i: nat :: SpeltAt(s, word, i)
  }

  ghost predicate IsWord(word: string) {
    word != "" && forall k :: 0 <= k < |word| ==> 'a' <= word[k] <= 'z'
  }

  lemma LowerCharIs(c: char, w: char)
    requires 'a' <= w <= 'z'
    ensures LowerChar(c) == w <==> c == w || c as int + 32 == w as int
    ensures LowerChar(c) == w ==> !IsSpace(c)
  {
  }

  lemma SpeltIsTrimmed(s: string, word: string, i: nat)
    requires IsWord(word) && SpeltAt(s, word, i)
    ensures TrimSpace(s) == s[i..i + |word|]
  {
    LowerCharIs(s[i], word[0]);
    LowerCharIs(s[i + |word| - 1], word[|word| - 1]);
    assert s[i + (|word| - 1)] == s[i + |word| - 1];
  }

  /** A text trimmed and lowered is a word exactly when the text is that word in any case, with blanks around it. */
  lemma NormalizedIff(s: string, word: string)
    requires IsWord(word)
    ensures ToLower(TrimSpace(s)) == word <==> Says(s, word)
  {
    if ToLower(TrimSpace(s)) == word {
      var i := TrimSpaceTakes(s);
      forall k | 0 <= k < |word|
        ensures s[i + k] == word[k] || s[i + k] as int + 32 == word[k] as int
      {
        LowerCharIs(s[i + k], word[k]);
        assert TrimSpace(s)[k] == s[i + k];
      }
      assert SpeltAt(s, word, i);
    }
    if Says(s, word) {
      var i: nat :| SpeltAt(s, word, i);
      SpeltIsTrimmed(s, word, i);
      forall k | 0 <= k < |word|
        ensures ToLower(TrimSpace(s))[k] == word[k]
      {
        LowerCharIs(s[i + k], word[k]);
      }
    }
  }

  // ----- cleaning

  const JSON_FENCE: string := "```json"
  const FENCE: string := "```"

  function DropBefore(s: string): string {
    var i := Index(s, '{');
    if i > 0 then s[i..] else s
  }

  function DropAfter(s: string): string {
    var j := LastIndex(s, '}');
    if 0 <= j < |s| - 1 then s[..j + 1] else s
  }

  /** Nothing before the first opening brace, then nothing after the last closing one. */
  function Cut(s: string): string {
    DropAfter(DropBefore(s))
  }

  /** The text once blanks and fences are off. */
  function Unfenced(raw: string): string {
    TrimSuffix(TrimPrefix(TrimPrefix(TrimSpace(raw), JSON_FENCE), FENCE), FENCE)
  }

  function Clean(raw: string): string {
    TrimSpace(Cut(Unfenced(raw)))
  }

  /** Position `i` holds the first opening brace and position `j`, behind it, the last closing one. */
  ghost predicate IsSpan(s: string, i: nat, j: nat) {
    && i < j < |s| && s[i] == '{' && s[j] == '}'
    && (forall k :: 0 <= k < i ==> s[k] != '{')
    && (forall k :: j < k < |s| ==> s[k] != '}')
  }

  /** Cutting characters outside the span, `a` of them in front, leaves the span as it is. */
  lemma CutKeepsSpan(s: string, t: string, a: nat, i: nat, j: nat)
    requires IsSpan(s, i, j) && a <= i && j < a + |t| <= |s| && t == s[a..a + |t|]
    ensures IsSpan(t, i - a, j - a) && t[i - a..j - a + 1] == s[i..j + 1]
  {
    assert forall k :: 0 <= k < |t| ==> t[k] == s[a + k];
  }

  lemma TrimLeftKeepsSpan(s: string, i: nat, j: nat) returns (a: nat)
    requires IsSpan(s, i, j)
    ensures a <= i && IsSpan(TrimLeft(s), i - a, j - a) && TrimLeft(s)[i - a..j - a + 1] == s[i..j + 1]
  {
    a := Leading(s);
    assert !IsSpace('{');
    CutKeepsSpan(s, TrimLeft(s), a, i, j);
  }

  lemma TrimRightKeepsSpan(s: string, i: nat, j: nat)
    requires IsSpan(s, i, j)
    ensures IsSpan(TrimRight(s), i, j) && TrimRight(s)[i..j + 1] == s[i..j + 1]
  {
    assert !IsSpace('}');
    CutKeepsSpan(s, TrimRight(s), 0, i, j);
  }

  lemma TrimSpaceKeepsSpan(s: string, i: nat, j: nat) returns (i': nat, j': nat)
    requires IsSpan(s, i, j)
    ensures IsSpan(TrimSpace(s), i', j') && TrimSpace(s)[i'..j' + 1] == s[i..j + 1]
  {
    var a := TrimLeftKeepsSpan(s, i, j);
    TrimRightKeepsSpan(TrimLeft(s), i - a, j - a);
    return i - a, j - a;
  }

  lemma TrimPrefixKeepsSpan(s: string, prefix: string, i: nat, j: nat) returns (i': nat, j': nat)
    requires IsSpan(s, i, j) && '{' !in prefix
    ensures IsSpan(TrimPrefix(s, prefix), i', j') && TrimPrefix(s, prefix)[i'..j' + 1] == s[i..j + 1]
  {
    if prefix <= s {
      forall k | 0 <= k < |prefix|
        ensures s[k] != '{'
      {
        assert prefix[k] in prefix;
      }
      CutKeepsSpan(s, TrimPrefix(s, prefix), |prefix|, i, j);
      return i - |prefix|, j - |prefix|;
    }
    return i, j;
  }

  lemma TrimSuffixKeepsSpan(s: string, suffix: string, i: nat, j: nat)
    requires IsSpan(s, i, j) && '}' !in suffix
    ensures IsSpan(TrimSuffix(s, suffix), i, j) && TrimSuffix(s, suffix)[i..j + 1] == s[i..j + 1]
  {
    if EndsWith(s, suffix) {
      var b := |s| - |suffix|;
      forall k | b <= k < |s|
        ensures s[k] != '}'
      {
        assert s[b..][k - b] in suffix;
      }
      CutKeepsSpan(s, TrimSuffix(s, suffix), 0, i, j);
    }
  }

  lemma DroppingGivesSpan(s: string, i: nat, j: nat)
    requires IsSpan(s, i, j)
    ensures Cut(s) == s[i..j + 1]
  {
    assert Index(s, '{') == i;
    var t := DropBefore(s);
    assert t == s[i..];
    CutKeepsSpan(s, t, i, i, j);
    assert LastIndex(t, '}') == j - i;
  }

  lemma BracedIsTrimmed(body: string)
    requires |body| >= 2 && body[0] == '{' && body[|body| - 1] == '}'
    ensures TrimSpace(body) == body
  {
    assert Leading(body) == 0 && body[0..] == body;
    assert Trailing(body) == 0;
  }

  lemma UnfencedKeepsSpan(raw: string, i: nat, j: nat) returns (i': nat, j': nat)
    requires IsSpan(raw, i, j)
    ensures IsSpan(Unfenced(raw), i', j') && Unfenced(raw)[i'..j' + 1] == raw[i..j + 1]
  {
    var s0 := TrimSpace(raw);
    i', j' := TrimSpaceKeepsSpan(raw, i, j);
    var s1 := TrimPrefix(s0, JSON_FENCE);
    i', j' := TrimPrefixKeepsSpan(s0, JSON_FENCE, i', j');
    var s2 := TrimPrefix(s1, FENCE);
    i', j' := TrimPrefixKeepsSpan(s1, FENCE, i', j');
    TrimSuffixKeepsSpan(s2, FENCE, i', j');
  }

  /** Cleaning is exactly cutting out the span between the outermost braces, whatever surrounds it. */
  lemma CleanIsSpan(raw: string, i: nat, j: nat)
    requires IsSpan(raw, i, j)
    ensures Clean(raw) == raw[i..j + 1]
  {
    assert Cut(Unfenced(raw)) == raw[i..j + 1] by {
      var i', j' := UnfencedKeepsSpan(raw, i, j);
      DroppingGivesSpan(Unfenced(raw), i', j');
    }
    BracedIsTrimmed(raw[i..j + 1]);
  }

  /** `s` is the text between the outermost braces of `raw`, if there is one. */
  ghost predicate IsSpanOf(s: string, raw: string) {
    forall i: nat, j: nat :: IsSpan(raw, i, j) ==> s == raw[i..j + 1]
  }

  lemma CleanIsSpanOf(raw: string)
    ensures IsSpanOf(Clean(raw), raw)
  {
    forall i: nat, j: nat | IsSpan(raw, i, j)
      ensures Clean(raw) == raw[i..j + 1]
    {
      CleanIsSpan(raw, i, j);
    }
  }

  /** Prose or fences around a braced text never change the result, and cleaning a second time changes nothing. */
  lemma SurroundingsDoNotMatter(before: string, body: string, after: string)
    requires |body| >= 2 && body[0] == '{' && body[|body| - 1] == '}'
    requires '{' !in before && '}' !in after
    ensures Clean(before + body + after) == body
    ensures Clean(body) == body
  {
    var raw := before + body + after;
    var i, j := |before|, |before| + |body| - 1;
    assert raw[i..j + 1] == body;
    CleanIsSpan(raw, i, j);
    CleanIsSpan(body, 0, |body| - 1);
  }

  /** The two cuts at the outermost braces, on one string that is reassigned. */
  method CutAtBraces(unfenced: string) returns (s: string)
    ensures s == Cut(unfenced)
  {
    s := unfenced;
    var first := Index(s, '{');
    if first > 0 {
      s := s[first..];
    }
    var last := LastIndex(s, '}');
    if 0 <= last < |s| - 1 {
      s := s[..last + 1];
    }
  }

  /** Cleaning as implemented, on one string that is reassigned at each step. */
  method CleanLLMOutput(raw: string) returns (s: string)
    ensures s == Clean(raw) && IsSpanOf(s, raw)
  {
    s := TrimSpace(raw);
    s := TrimPrefix(s, JSON_FENCE);
    s := TrimPrefix(s, FENCE);
    s := TrimSuffix(s, FENCE);
    s := CutAtBraces(s);
    s := TrimSpace(s);
    CleanIsSpanOf(raw);
  }

  // ----- extraction

  /** An innermost pair of braces: nothing between them is a brace. */
  ghost predicate IsBlock(s: string, i: nat, j: nat) {
    && i < j < |s| && s[i] == '{' && s[j] == '}'
    && forall k :: i < k < j ==> s[k] != '{' && s[k] != '}'
  }

  function NextBrace(s: string, from: nat): (j: nat)
    requires from <= |s|
    ensures from <= j <= |s|
    ensures forall k :: from <= k < j ==> s[k] != '{' && s[k] != '}'
    ensures j < |s| ==> s[j] == '{' || s[j] == '}'
    decreases |s| - from
  {
    if from == |s| || s[from] == '{' || s[from] == '}' then from else NextBrace(s, from + 1)
  }

  /**
   All matches of an opening brace, any number of other characters, and a closing brace, as a leftmost scan that never
   overlaps yields them: from each position on, the first match, then the scan goes on behind it.
   */
  function FindAll(s: string, from: nat): (blocks: seq<(nat, nat)>)
    requires from <= |s|
    decreases |s| - from
  {
    if from == |s| then []
    else if s[from] != '{' then FindAll(s, from + 1)
    else
      var j := NextBrace(s, from + 1);
      if j < |s| && s[j] == '}' then [(from, j)] + FindAll(s, j + 1) else FindAll(s, from + 1)
  }

  lemma {:induction false} ScanFinds(s: string, from: nat, i: nat, j: nat)
    requires from <= |s|
    ensures (i, j) in FindAll(s, from) <==> from <= i && IsBlock(s, i, j)
    decreases |s| - from
  {
    if from < |s| {
      var next := NextBrace(s, from + 1);
      if s[from] == '{' && next < |s| && s[next] == '}' {
        ScanFinds(s, next + 1, i, j);
        assert (i, j) in FindAll(s, from) <==> (i == from && j == next) || (i, j) in FindAll(s, next + 1);
      } else {
        ScanFinds(s, from + 1, i, j);
      }
    }
  }

  /** The scan finds exactly the innermost brace pairs. */
  lemma FindAllIsEveryBlock(s: string, from: nat)
    requires from <= |s|
    ensures forall i: nat, j: nat :: (i, j) in FindAll(s, from) <==> from <= i && IsBlock(s, i, j)
  {
    forall i: nat, j: nat
      ensures (i, j) in FindAll(s, from) <==> from <= i && IsBlock(s, i, j)
    {
      ScanFinds(s, from, i, j);
    }
  }

  /** The scan yields the pairs from left to right. */
  lemma {:induction false} FindAllIsSorted(s: string, from: nat)
    requires from <= |s|
    ensures forall a, b :: 0 <= a < b < |FindAll(s, from)| ==> FindAll(s, from)[a].0 < FindAll(s, from)[b].0
    ensures forall a :: 0 <= a < |FindAll(s, from)| ==> from <= FindAll(s, from)[a].0
    decreases |s| - from
  {
    if from < |s| {
      var next := NextBrace(s, from + 1);
      if s[from] == '{' && next < |s| && s[next] == '}' {
        FindAllIsSorted(s, next + 1);
      } else {
        FindAllIsSorted(s, from + 1);
      }
    }
  }

  function Text(s: string, block: (nat, nat)): string {
    if block.0 <= block.1 < |s| then s[block.0..block.1 + 1] else ""
  }

  /** The first of a list of blocks whose text decodes. */
  function FirstDecoding(s: string, blocks: seq<(nat, nat)>, json: Json): Option<string> {
    if blocks == [] then None
    else if json.isObject(Text(s, blocks[0])) then Some(Text(s, blocks[0]))
    else FirstDecoding(s, blocks[1..], json)
  }

  function Extract(s: string, json: Json): Option<string> {
    FirstDecoding(s, FindAll(s, 0), json)
  }

  lemma {:induction false} FirstDecodingIsFirst(s: string, blocks: seq<(nat, nat)>, json: Json)
    ensures var r := FirstDecoding(s, blocks, json);
            && (r.None? <==> forall k :: 0 <= k < |blocks| ==> !json.isObject(Text(s, blocks[k])))
            && (r.Some? ==> exists k :: 0 <= k < |blocks| && Text(s, blocks[k]) == r.value && json.isObject(r.value)
                                        && forall m :: 0 <= m < k ==> !json.isObject(Text(s, blocks[m])))
  {
    if blocks != [] && !json.isObject(Text(s, blocks[0])) {
      FirstDecodingIsFirst(s, blocks[1..], json);
      var r := FirstDecoding(s, blocks[1..], json);
      if r.Some? {
        var k :| 0 <= k < |blocks[1..]| && Text(s, blocks[1..][k]) == r.value && json.isObject(r.value)
                 && forall m :: 0 <= m < k ==> !json.isObject(Text(s, blocks[1..][m]));
        assert Text(s, blocks[k + 1]) == r.value;
        assert forall m :: 0 < m < k + 1 ==> blocks[m] == blocks[1..][m - 1];
      } else {
        assert forall k :: 0 < k < |blocks| ==> blocks[k] == blocks[1..][k - 1];
      }
    }
  }

  /** The text of every block decodes to something else than an object. */
  ghost predicate NoneDecodes(s: string, json: Json, before: nat) {
    forall i: nat, j: nat :: IsBlock(s, i, j) && i < before ==> !json.isObject(s[i..j + 1])
  }

  lemma EarlierBlocksFail(s: string, json: Json, k: nat, before: nat)
    requires k <= |FindAll(s, 0)|
    requires forall m :: 0 <= m < k ==> !json.isObject(Text(s, FindAll(s, 0)[m]))
    requires forall m :: k <= m < |FindAll(s, 0)| ==> FindAll(s, 0)[m].0 >= before
    ensures NoneDecodes(s, json, before)
  {
    var blocks := FindAll(s, 0);
    FindAllIsEveryBlock(s, 0);
    forall i: nat, j: nat | IsBlock(s, i, j) && i < before
      ensures !json.isObject(s[i..j + 1])
    {
      assert (i, j) in blocks;
      var m :| 0 <= m < |blocks| && blocks[m] == (i, j);
      assert Text(s, blocks[m]) == s[i..j + 1];
    }
  }

  /** The text returned, `s[i..j + 1]`, is the leftmost innermost brace pair whose text decodes. */
  ghost predicate IsLeftmost(s: string, json: Json, text: string, i: nat, j: nat) {
    IsBlock(s, i, j) && s[i..j + 1] == text && json.isObject(text) && NoneDecodes(s, json, i)
  }

  lemma FirstDecodingIsLeftmost(s: string, json: Json, k: nat)
    requires k < |FindAll(s, 0)| && json.isObject(Text(s, FindAll(s, 0)[k]))
    requires forall m :: 0 <= m < k ==> !json.isObject(Text(s, FindAll(s, 0)[m]))
    ensures var block := FindAll(s, 0)[k]; IsLeftmost(s, json, Text(s, block), block.0, block.1)
  {
    var blocks := FindAll(s, 0);
    var i, j := blocks[k].0, blocks[k].1;
    assert (i, j) in blocks;
    ScanFinds(s, 0, i, j);
    FindAllIsSorted(s, 0);
    EarlierBlocksFail(s, json, k, i);
  }

  /** Extraction returns the leftmost innermost brace pair whose text decodes and fails exactly when there is none. */
  lemma ExtractIsLeftmost(s: string, json: Json)
    ensures Extract(s, json).None? <==> NoneDecodes(s, json, |s|)
    ensures Extract(s, json).Some? ==> exists i: nat, j: nat :: IsLeftmost(s, json, Extract(s, json).value, i, j)
  {
    var blocks := FindAll(s, 0);
    FirstDecodingIsFirst(s, blocks, json);
    var r := Extract(s, json);
    if r.Some? {
      var k :| 0 <= k < |blocks| && Text(s, blocks[k]) == r.value && json.isObject(r.value)
               && forall m :: 0 <= m < k ==> !json.isObject(Text(s, blocks[m]));
      FirstDecodingIsLeftmost(s, json, k);
      var i: nat, j: nat := blocks[k].0, blocks[k].1;
      assert IsLeftmost(s, json, r.value, i, j);
    } else {
      EarlierBlocksFail(s, json, |blocks|, |s|);
    }
  }

  lemma LeftmostIsUnique(s: string, json: Json, text: string, i: nat, j: nat, other: string, a: nat, b: nat)
    requires IsLeftmost(s, json, text, i, j) && IsLeftmost(s, json, other, a, b)
    ensures text == other
  {
    assert i == a;
    assert j == b;
  }

  method ExtractJSON(s: string, json: Json) returns (r: Option<string>)
    ensures r == Extract(s, json)
  {
    var matches := FindAll(s, 0);
    for k := 0 to |matches|
      invariant Extract(s, json) == FirstDecoding(s, matches[k..], json)
    {
      if json.isObject(Text(s, matches[k])) {
        return Some(Text(s, matches[k]));
      }
    }
    return None;
  }

  // ----- validation

  datatype Error = BadJson | MissingAnalysis | InvalidAction | NoJsonFound

  datatype Result = Ok(decision: Decision) | Err(error: Error)

  predicate IsValidAction(action: string) {
    action == "log" || action == "alert" || action == "suggest" || action == "execute"
  }

  /** The action as it is compared: trimmed and in lower case. */
  function NormalAction(d: Decision): string {
    ToLower(TrimSpace(d.action))
  }

  /** The confidence as it is compared: an absent or zero one counts as one half. */
  function NormalConfidence(d: Decision): real {
    if d.confidence == 0.0 then 0.5 else d.confidence
  }

  /** The second half of validation works on the decision in place: a doubtful execute becomes a suggestion. */
  function Validate(d: Decision): Result {
    if TrimSpace(d.analysis) == "" then Err(MissingAnalysis)
    else if !IsValidAction(d.action) then Err(InvalidAction)
    else if d.action == "execute" && d.confidence < 0.75 then Ok(d.(action := "suggest", command := ""))
    else Ok(d)
  }

  function ParseAndValidate(s: string, json: Json): Result {
    match json.decode(s)
    case None => Err(BadJson)
    case Some(d) => Validate(d.(action := NormalAction(d), confidence := NormalConfidence(d)))
  }

  function Truncated(s: string, n: nat): string {
    if |s| <= n then s else s[..n]
  }

  function Fallback(raw: string): Decision {
    Decision("Impossible d'analyser la réponse LLM", "log", "", "Fallback — réponse brute : " + Truncated(raw, 80), 0.0)
  }

  /** The text that a reply is judged by: the cleaned reply when it is a valid decision, else the extracted block. */
  function Judged(raw: string, json: Json): Option<string> {
    var cleaned := Clean(raw);
    if ParseAndValidate(cleaned, json).Ok? then Some(cleaned) else Extract(cleaned, json)
  }

  function ParseDecision(raw: string, json: Json): Result {
    match Judged(raw, json)
    case None => Err(NoJsonFound)
    case Some(text) => ParseAndValidate(text, json)
  }

  /** A decision that is safe to act on: one of the four actions, an analysis and, for an execute, confidence. */
  ghost predicate IsSafe(d: Decision) {
    && (d.action == "log" || d.action == "alert" || d.action == "suggest" || d.action == "execute")
    && HasText(d.analysis)
    && (d.action == "execute" ==> d.confidence >= 0.75)
  }

  /** A decoded decision that has an analysis and names one of the four actions, in any case and with any blanks. */
  ghost predicate IsAcceptable(d: Decision) {
    && HasText(d.analysis)
    && (Says(d.action, "log") || Says(d.action, "alert") || Says(d.action, "suggest") || Says(d.action, "execute"))
  }

  /** A decoded execute whose confidence is below 0.75, or absent and so decoded as 0. */
  ghost predicate IsDoubtful(d: Decision) {
    Says(d.action, "execute") && d.confidence < 0.75
  }

  /**
   What becomes of a decoded decision: a doubtful execute loses its command and becomes a suggestion, any other keeps
   both; an absent confidence counts as one half, and the texts stay.
   */
  ghost predicate IsOutcome(d: Decision, r: Decision) {
    && r.analysis == d.analysis && r.reason == d.reason
    && r.confidence == (if d.confidence == 0.0 then 0.5 else d.confidence)
    && (if IsDoubtful(d) then r.action == "suggest" && r.command == ""
        else Says(d.action, r.action) && r.command == d.command)
  }

  lemma ActionsSpelled(action: string)
    ensures var normal := ToLower(TrimSpace(action));
            && (normal == "log" <==> Says(action, "log")) && (normal == "alert" <==> Says(action, "alert"))
            && (normal == "suggest" <==> Says(action, "suggest")) && (normal == "execute" <==> Says(action, "execute"))
  {
    NormalizedIff(action, "log");
    NormalizedIff(action, "alert");
    NormalizedIff(action, "suggest");
    NormalizedIff(action, "execute");
  }

  /** Exactly which texts are accepted, and exactly what becomes of the decision that an accepted one decodes to. */
  lemma AcceptedDecision(s: string, json: Json)
    ensures var r := ParseAndValidate(s, json);
            && (r.Ok? <==> json.decode(s).Some? && IsAcceptable(json.decode(s).value))
            && (r.Ok? ==> IsSafe(r.decision) && IsOutcome(json.decode(s).value, r.decision))
  {
    if json.decode(s).Some? {
      var d := json.decode(s).value;
      var i := TrimSpaceTakes(d.analysis);
      ActionsSpelled(d.action);
    }
  }

  /** Validation as implemented, on one decision that is changed in place. */
  method ParseAndValidateText(s: string, json: Json) returns (r: Result)
    ensures r == ParseAndValidate(s, json)
    ensures r.Ok? <==> json.decode(s).Some? && IsAcceptable(json.decode(s).value)
    ensures r.Ok? ==> IsSafe(r.decision) && IsOutcome(json.decode(s).value, r.decision)
    ensures r.Err? ==>
              r.error == if json.decode(s).None? then BadJson
                         else if !HasText(json.decode(s).value.analysis) then MissingAnalysis
                         else InvalidAction
  {
    AcceptedDecision(s, json);
    if json.decode(s).Some? {
      ghost var i := TrimSpaceTakes(json.decode(s).value.analysis);
    }
    var decoded := json.decode(s);
    if decoded.None? {
      return Err(BadJson);
    }
    var d := decoded.value;
    d := d.(action := NormalAction(d));
    if d.confidence == 0.0 {
      d := d.(confidence := 0.5);
    }
    if TrimSpace(d.analysis) == "" {
      return Err(MissingAnalysis);
    }
    if !IsValidAction(d.action) {
      return Err(InvalidAction);
    }
    if d.action == "execute" && d.confidence < 0.75 {
      d := d.(action := "suggest");
      d := d.(command := "");
    }
    return Ok(d);
  }

  /**
   Every accepted reply is a safe decision, taken from the outermost span or else from the leftmost decoding block.
   */
  lemma AcceptedReplyIsSafe(raw: string, json: Json)
    ensures ParseDecision(raw, json).Ok? ==> IsSafe(ParseDecision(raw, json).decision)
    ensures ParseDecision(raw, json).Ok? ==>
              Judged(raw, json).Some? && json.decode(Judged(raw, json).value).Some?
  {
    if Judged(raw, json).Some? {
      AcceptedDecision(Judged(raw, json).value, json);
    }
  }

  /** A text that says execute with a confidence that is absent or below 0.75. */
  ghost predicate SaysDoubtful(text: string, json: Json) {
    json.decode(text).Some? && IsDoubtful(json.decode(text).value)
  }

  /** A reply that is judged by a doubtful execute never yields a command: it becomes a suggestion without one. */
  lemma DoubtfulExecuteIsDisarmed(raw: string, json: Json)
    requires ParseDecision(raw, json).Ok? && SaysDoubtful(Judged(raw, json).value, json)
    ensures ParseDecision(raw, json).decision.command == "" && ParseDecision(raw, json).decision.action == "suggest"
  {
    AcceptedDecision(Judged(raw, json).value, json);
  }

  /**
   A reply that is no valid decision as a whole is accepted exactly when its leftmost decoding block is one, and then
   for what that block says: a later block is never looked at, even if it would be valid.
   */
  lemma LeftmostBlockDecides(raw: string, json: Json)
    requires !ParseAndValidate(Clean(raw), json).Ok?
    ensures ParseDecision(raw, json).Ok?
       <==> exists text, i: nat, j: nat :: IsLeftmost(Clean(raw), json, text, i, j) && ParseAndValidate(text, json).Ok?
    ensures forall text, i: nat, j: nat :: IsLeftmost(Clean(raw), json, text, i, j) ==>
              ParseDecision(raw, json) == ParseAndValidate(text, json)
  {
    var cleaned := Clean(raw);
    ExtractIsLeftmost(cleaned, json);
    var r := Extract(cleaned, json);
    if r.Some? {
      var i: nat, j: nat :| IsLeftmost(cleaned, json, r.value, i, j);
      forall text, a: nat, b: nat | IsLeftmost(cleaned, json, text, a, b)
        ensures text == r.value
      {
        LeftmostIsUnique(cleaned, json, r.value, i, j, text, a, b);
      }
    } else {
      assert forall text, i: nat, j: nat :: !IsLeftmost(cleaned, json, text, i, j);
    }
  }

  /** The reply is accepted and its decision carries a command. */
  predicate YieldsCommand(raw: string, json: Json) {
    ParseDecision(raw, json).Ok? && ParseDecision(raw, json).decision.command != ""
  }

  /** A valid decision with a command that is not a doubtful execute itself. */
  ghost predicate HasSafeCommand(text: string, json: Json) {
    && ParseAndValidate(text, json).Ok?
    && json.decode(text).value.command != "" && !SaysDoubtful(text, json)
  }

  /** The reply as a whole has no analysis, and the leftmost decoding block inside it is a decision with a command. */
  ghost predicate InnerDecides(raw: string, json: Json) {
    && json.decode(Clean(raw)).Some? && !HasText(json.decode(Clean(raw)).value.analysis)
    && exists text, i: nat, j: nat :: IsLeftmost(Clean(raw), json, text, i, j) && HasSafeCommand(text, json)
  }

  lemma SafeCommandIsKept(text: string, json: Json)
    ensures HasSafeCommand(text, json)
       <==> ParseAndValidate(text, json).Ok? && ParseAndValidate(text, json).decision.command != ""
  {
    AcceptedDecision(text, json);
  }

  lemma ExtractedYields(raw: string, json: Json)
    requires !ParseAndValidate(Clean(raw), json).Ok?
    ensures YieldsCommand(raw, json)
       <==> exists text, i: nat, j: nat :: IsLeftmost(Clean(raw), json, text, i, j) && HasSafeCommand(text, json)
  {
    var cleaned := Clean(raw);
    ExtractIsLeftmost(cleaned, json);
    var r := Extract(cleaned, json);
    if r.Some? {
      SafeCommandIsKept(r.value, json);
      var i: nat, j: nat :| IsLeftmost(cleaned, json, r.value, i, j);
      forall text, a: nat, b: nat | IsLeftmost(cleaned, json, text, a, b)
        ensures text == r.value
      {
        LeftmostIsUnique(cleaned, json, r.value, i, j, text, a, b);
      }
    } else {
      assert forall text, i: nat, j: nat :: !IsLeftmost(cleaned, json, text, i, j);
    }
  }

  /**
   A reply that says a doubtful execute as a whole still yields a command exactly when it is rejected for its blank
   analysis and the leftmost block that decodes inside it is a valid decision with a command and no doubtful execute.
   */
  lemma DoubtfulReplyYieldsIff(raw: string, json: Json)
    requires SaysDoubtful(Clean(raw), json)
    ensures YieldsCommand(raw, json) <==> InnerDecides(raw, json)
  {
    AcceptedDecision(Clean(raw), json);
    if !ParseAndValidate(Clean(raw), json).Ok? {
      ExtractedYields(raw, json);
    }
  }

  /** A braced text with another one, `text`, nested in it at `i..j`, and no brace between their opening ones. */
  ghost predicate Nests(raw: string, text: string, i: nat, j: nat) {
    && 0 < i && IsBlock(raw, i, j) && j + 1 < |raw| && text == raw[i..j + 1]
    && raw[0] == '{' && raw[|raw| - 1] == '}'
    && forall k :: 0 < k < i ==> raw[k] != '{' && raw[k] != '}'
  }

  lemma BlocksStartLater(s: string, i: nat, a: nat, b: nat)
    requires i < |s| && s[i] == '{'
    requires forall k :: 0 < k < i ==> s[k] != '{' && s[k] != '}'
    ensures IsBlock(s, a, b) ==> a >= i
  {
  }

  lemma BracedIsClean(raw: string)
    requires |raw| >= 2 && raw[0] == '{' && raw[|raw| - 1] == '}'
    ensures Clean(raw) == raw
  {
    assert raw[0..|raw|] == raw;
    CleanIsSpan(raw, 0, |raw| - 1);
  }

  /** Cleaning leaves the whole as it is, and the nested object is the leftmost block that decodes if it does. */
  lemma NestedObject(raw: string, text: string, i: nat, j: nat, json: Json)
    requires Nests(raw, text, i, j) && json.isObject(text)
    ensures Clean(raw) == raw && IsLeftmost(raw, json, text, i, j)
  {
    BracedIsClean(raw);
  }

  lemma ExtractIs(s: string, json: Json, text: string, i: nat, j: nat)
    requires IsLeftmost(s, json, text, i, j)
    ensures Extract(s, json) == Some(text)
  {
    ExtractIsLeftmost(s, json);
    var r := Extract(s, json);
    var a: nat, b: nat :| IsLeftmost(s, json, r.value, a, b);
    LeftmostIsUnique(s, json, text, i, j, r.value, a, b);
  }

  /** An object without an analysis around another one that is a valid decision is judged by the inner one. */
  lemma NestedReplyYields(raw: string, text: string, i: nat, j: nat, json: Json)
    requires Nests(raw, text, i, j) && json.isObject(text) && HasSafeCommand(text, json)
    requires json.decode(raw).Some? && !HasText(json.decode(raw).value.analysis)
    ensures ParseDecision(raw, json).Ok? && ParseDecision(raw, json).decision.command == json.decode(text).value.command
  {
    NestedObject(raw, text, i, j, json);
    assert Extract(raw, json) == Some(text) by {
      ExtractIs(raw, json, text, i, j);
    }
    assert !ParseAndValidate(raw, json).Ok? by {
      AcceptedDecision(raw, json);
    }
    AcceptedDecision(text, json);
  }

  /** A well-formed reply is accepted as it stands, whatever prose or fences the model put around it. */
  lemma FencedReplyIsAccepted(before: string, body: string, after: string, json: Json)
    requires |body| >= 2 && body[0] == '{' && body[|body| - 1] == '}'
    requires '{' !in before && '}' !in after
    requires ParseAndValidate(body, json).Ok?
    ensures ParseDecision(before + body + after, json) == ParseAndValidate(body, json)
  {
    SurroundingsDoNotMatter(before, body, after);
  }
}
