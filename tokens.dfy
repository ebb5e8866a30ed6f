/**
 * The streaming token source read by the `validate_json` entry points of
 * src/validators.rs (a `jiter::Jiter`). The scanner itself is not modelled:
 * the input is already a sequence of tokens and the cursor is an index into it.
 */
module Tokens {
  import opened Wrappers
  import opened Field

  /** A token as the scanner classifies it; `OtherToken` is anything else (null, bool, float, brackets). */
  datatype Token = StrToken(s: string) | NumToken(n: int) | OtherToken

  /** What `next_int` yields: a number that fits 64 bits, or a big integer. */
  datatype NumberInt = SmallInt(i: i64) | BigInt(n: int)

  /** `next_str` at `index`: the string and the cursor after it, or a decode error at `index`. */
  function StrAt(tokens: seq<Token>, index: nat): (Result<string, PyErr>, nat)
  {
    if index < |tokens| && tokens[index].StrToken? then (Ok(tokens[index].s), index + 1)
    else (Err(JsonError(index)), index)
  }

  /** `next_int` at `index`: the number, classified by whether it fits 64 bits, or a decode error at `index`. */
  function IntAt(tokens: seq<Token>, index: nat): (Result<NumberInt, PyErr>, nat)
  {
    if index < |tokens| && tokens[index].NumToken? then
      var n := tokens[index].n;
      (Ok(if InI64(n) then SmallInt(n as i64) else BigInt(n)), index + 1)
    else (Err(JsonError(index)), index)
  }

  /** The cursor over a token sequence. */
  class Jiter {
    const tokens: seq<Token>
    var index: nat

    ghost predicate Valid()
      reads this
    {
      index <= |tokens|
    }

    constructor (tokens: seq<Token>)
      ensures Valid() && this.tokens == tokens && index == 0
    {
      this.tokens := tokens;
      index := 0;
    }

    /** Reads one string token and moves past it. */
    method NextStr() returns (r: Result<string, PyErr>)
      requires Valid()
      modifies this
      ensures Valid()
      ensures (r, index) == StrAt(tokens, old(index))
    {
      if index < |tokens| && tokens[index].StrToken? {
        r := Ok(tokens[index].s);
        index := index + 1;
      } else {
        r := Err(JsonError(index));
      }
    }

    /** Reads one number token and moves past it. */
    method NextInt() returns (r: Result<NumberInt, PyErr>)
      requires Valid()
      modifies this
      ensures Valid()
      ensures (r, index) == IntAt(tokens, old(index))
    {
      if index < |tokens| && tokens[index].NumToken? {
        var n := tokens[index].n;
        r := Ok(if InI64(n) then SmallInt(n as i64) else BigInt(n));
        index := index + 1;
      } else {
        r := Err(JsonError(index));
      }
    }
  }
}
