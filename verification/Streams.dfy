// A connected byte stream, as both socket protocols use it: what the peer has
// sent and not yet been read, and what has been written.
module Streams {
  import opened Bytes
  import opened Results

  class ByteStream {
    var input: seq<byte>
    var output: seq<byte>

    constructor (input: seq<byte>)
      ensures this.input == input && output == []
    {
      this.input, output := input, [];
    }

    /** `read_exact`: all `n` bytes, or an error at the end of the stream that uses up what was left. */
    method ReadExact(n: nat) returns (r: Result<seq<byte>>)
      modifies this`input
      ensures r == if n <= |old(input)| then Ok(old(input)[..n]) else Err(EndOfStream)
      ensures input == if n <= |old(input)| then old(input)[n..] else []
    {
      if n > |input| {
        input := [];
        return Err(EndOfStream);
      }
      r := Ok(input[..n]);
      input := input[n..];
    }

    method WriteAll(data: seq<byte>)
      modifies this`output
      ensures output == old(output) + data
    {
      output := output + data;
    }
  }
}
