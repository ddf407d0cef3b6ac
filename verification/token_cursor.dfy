/** `TokenHandle`: an immutable cursor over the token list. Reads past the end
    return an end-of-file sentinel instead of failing. */
module TokenCursor {
  import opened Position
  import opened Tokens

  /** The sentinel the source stores in the record is computed from the token
      list alone, and `with` only ever changes `position`, so it is a function
      of `tokens` here. */
  datatype TokenHandle = TokenHandle(tokens: seq<Token>, position: nat)

  /** The line the sentinel of an empty token list sits on. */
  const NowhereLine := Line("<???>", "", 1)

  /** The synthetic end-of-file token: just past the text of the last token's
      line, or at column 1 of an empty line when there are no tokens. */
  function EndOfFileToken(tokens: seq<Token>): (t: Token)
    ensures t.EndOfFile? && t.location.length == DefaultLength
    ensures |tokens| > 0 ==> var line := tokens[|tokens| - 1].location.line;
              t.location.line == line && t.location.position == |line.text|
    ensures |tokens| == 0 ==> t.location.line == NowhereLine && t.location.position == 1
  {
    if |tokens| > 0 then
      var line := tokens[|tokens| - 1].location.line;
      EndOfFile(Location(line, |line.text|, DefaultLength))
    else
      EndOfFile(Location(NowhereLine, 1, DefaultLength))
  }

  function NewTokenHandle(tokens: seq<Token>): (h: TokenHandle)
    ensures h.tokens == tokens && h.position == 0
  {
    TokenHandle(tokens, 0)
  }

  /** The indexer: the token `offset` places ahead, or the sentinel past the end.
      A negative offset throws in the source, so `offset` is a `nat` here. */
  function At(h: TokenHandle, offset: nat): (t: Token)
    ensures h.position + offset < |h.tokens| ==> t == h.tokens[h.position + offset]
    ensures h.position + offset >= |h.tokens| ==> t == EndOfFileToken(h.tokens)
  {
    var index := offset + h.position;
    if index >= |h.tokens| then EndOfFileToken(h.tokens) else h.tokens[index]
  }

  /** Moves `offset` tokens forward, without stopping at the end. */
  function Advance(h: TokenHandle, offset: nat): (r: TokenHandle)
    ensures r.tokens == h.tokens && r.position == h.position + offset
  {
    h.(position := h.position + offset)
  }

  /** After advancing, each read sees the token that many places further on. */
  lemma AdvanceShifts(h: TokenHandle, offset: nat, k: nat)
    ensures At(Advance(h, offset), k) == At(h, offset + k)
  {
  }

  /** True once the position has reached the length of the token list. */
  function EndOfStream(h: TokenHandle): (r: bool)
    ensures r ==> h.position >= |h.tokens| && At(h, 0) == EndOfFileToken(h.tokens)
    ensures !r ==> h.position < |h.tokens| && At(h, 0) == h.tokens[h.position]
  {
    h.position >= |h.tokens|
  }

  /** The first index from `i` on whose token has one of `types`, or
      `max(i, |tokens|)` when there is none. */
  function FirstOfTypes(tokens: seq<Token>, types: set<TokenType>, i: nat): (j: nat)
    ensures i <= j
    ensures j < |tokens| ==> TypeOf(tokens[j]) in types
    ensures j >= |tokens| ==> j == if i <= |tokens| then |tokens| else i
    decreases |tokens| - i
  {
    if i >= |tokens| then i
    else if TypeOf(tokens[i]) in types then i
    else FirstOfTypes(tokens, types, i + 1)
  }

  /** No token before the one found has any of `types`. */
  lemma {:induction false} FirstOfTypesSkips(tokens: seq<Token>, types: set<TokenType>, i: nat, k: nat)
    requires i <= k < FirstOfTypes(tokens, types, i) && k < |tokens|
    ensures TypeOf(tokens[k]) !in types
    decreases |tokens| - i
  {
    if k > i {
      FirstOfTypesSkips(tokens, types, i + 1, k);
    }
  }

  /** Moves to the first token, from here on, with one of `types`; stops at the
      end of the list when there is none. */
  function AdvanceUntil(h: TokenHandle, types: set<TokenType>): (r: TokenHandle)
    ensures r.tokens == h.tokens && h.position <= r.position
    ensures r.position < |h.tokens| ==> TypeOf(h.tokens[r.position]) in types
    ensures r.position >= |h.tokens| ==> r.position == if h.position <= |h.tokens| then |h.tokens| else h.position
  {
    h.(position := FirstOfTypes(h.tokens, types, h.position))
  }

  /** Every token `AdvanceUntil` moves over lacks all of `types`. */
  lemma AdvanceUntilSkips(h: TokenHandle, types: set<TokenType>)
    ensures var r := AdvanceUntil(h, types);
            forall k :: h.position <= k < r.position && k < |h.tokens| ==> TypeOf(h.tokens[k]) !in types
  {
    forall k | h.position <= k < AdvanceUntil(h, types).position && k < |h.tokens|
      ensures TypeOf(h.tokens[k]) !in types
    {
      FirstOfTypesSkips(h.tokens, types, h.position, k);
    }
  }

  /** Like `AdvanceUntil`, then also steps over the token found; when none was
      found it stays at the end. */
  function AdvanceThrough(h: TokenHandle, types: set<TokenType>): (r: TokenHandle)
    ensures r.tokens == h.tokens && h.position <= r.position
    ensures h.position < |h.tokens| ==> h.position < r.position <= |h.tokens|
    ensures h.position >= |h.tokens| ==> r == h
    ensures h.position < r.position < |h.tokens| ==> TypeOf(h.tokens[r.position - 1]) in types
  {
    var until := AdvanceUntil(h, types);
    if !EndOfStream(until) then until.(position := until.position + 1) else until
  }

  /** Every token `AdvanceThrough` moves over, except the last, lacks all of `types`. */
  lemma AdvanceThroughSkips(h: TokenHandle, types: set<TokenType>)
    ensures var r := AdvanceThrough(h, types);
            forall k :: h.position <= k < r.position - 1 && k < |h.tokens| ==> TypeOf(h.tokens[k]) !in types
  {
    AdvanceUntilSkips(h, types);
  }

  /** A diagnostic at the current token, which is the sentinel at the end. */
  function Error(h: TokenHandle, message: string): (r: Position.Error)
    ensures r.message == message
    ensures !EndOfStream(h) ==> r.location == h.tokens[h.position].location
    ensures EndOfStream(h) ==> r.location == EndOfFileToken(h.tokens).location
  {
    Position.Error(At(h, 0).location, message)
  }

  /** A new cursor reads the tokens in order, and then only the sentinel. */
  lemma ReadsThenSentinel(tokens: seq<Token>, k: nat)
    ensures At(NewTokenHandle(tokens), k) == if k < |tokens| then tokens[k] else EndOfFileToken(tokens)
  {}
}
