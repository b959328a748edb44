/** A cursor over a message's tokens that can also report the token it is on
    and peek at the next one. */
module TokenIterators {
  import opened SbeIr

  class TokenIterator {
    const tokens: seq<Token>
    /** The position of the current token; -1 before the first `Next`. */
    var idx: int

    ghost predicate Valid()
      reads this
    {
      -1 <= idx < |tokens|
    }

    /** A new iterator stands before the first token. */
    constructor (tokens: seq<Token>)
      ensures this.tokens == tokens && idx == -1
      ensures Valid()
    {
      this.tokens := tokens;
      idx := -1;
    }

    /** True exactly when a token follows the cursor. */
    method HasNext() returns (b: bool)
      requires Valid()
      ensures b <==> 0 <= idx + 1 < |tokens|
    {
      b := idx < |tokens| - 1;
    }

    /** Moves the cursor one token on and returns the token it lands on. */
    method Next() returns (t: Token)
      requires Valid() && idx + 1 < |tokens|
      modifies this
      ensures Valid() && idx == old(idx) + 1
      ensures t == tokens[idx]
    {
      idx := idx + 1;
      t := tokens[idx];
    }

    /** The token under the cursor; the cursor does not move. */
    method Current() returns (t: Token)
      requires Valid() && 0 <= idx
      ensures t == tokens[idx]
    {
      t := tokens[idx];
    }

    /** The token after the cursor; the cursor does not move. */
    method PeekNext() returns (t: Token)
      requires Valid() && idx + 1 < |tokens|
      ensures t == tokens[idx + 1]
    {
      t := tokens[idx + 1];
    }
  }
}
