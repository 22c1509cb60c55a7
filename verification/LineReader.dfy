/** What `std::getline` followed by `consume(bytes_transferred)` does to a stream buffer.

    `async_read_until` reports the length of the first line with its newline; `getline` already
    takes exactly that many bytes out, and `consume` then takes as many again, or whatever is
    left. */
module LineReader {
  import opened Bytes

  function Line(data: string): (line: string)
    requires '\n' in data
    ensures '\n' !in line
  {
    data[..IndexOf(data, '\n')]
  }

  function AfterLine(data: string): string
    requires '\n' in data
  {
    data[IndexOf(data, '\n') + 1..]
  }

  /** The number of bytes that `consume` discards after the line was already extracted. */
  function Overrun(data: string): (n: nat)
    requires '\n' in data
    ensures n <= |AfterLine(data)|
  {
    var transferred := |Line(data)| + 1;
    if transferred <= |AfterLine(data)| then transferred else |AfterLine(data)|
  }

  function Dropped(data: string): string
    requires '\n' in data
  {
    AfterLine(data)[..Overrun(data)]
  }

  function Leftover(data: string): string
    requires '\n' in data
  {
    AfterLine(data)[Overrun(data)..]
  }

  /** Every byte of the buffer is in the line, its newline, the discarded part or the rest; as many bytes
      are discarded as the line had with its newline, or all that were left. */
  lemma Split(data: string)
    requires '\n' in data
    ensures |Dropped(data)| <= |Line(data)| + 1
    ensures |Dropped(data)| < |Line(data)| + 1 ==> Leftover(data) == ""
    ensures data == Line(data) + "\n" + Dropped(data) + Leftover(data)
  {
    var k := IndexOf(data, '\n');
    assert data == data[..k] + [data[k]] + data[k + 1..];
    assert AfterLine(data) == Dropped(data) + Leftover(data);
    Associate(Line(data) + "\n", Dropped(data), Leftover(data));
  }

  /** `std::getline` on a buffer that holds a newline: the line without it, and what is left. */
  method GetLine(buffer: string) returns (line: string, rest: string)
    requires '\n' in buffer
    ensures buffer == line + "\n" + rest && '\n' !in line
    ensures line == Line(buffer) && rest == AfterLine(buffer)
  {
    var k := IndexOf(buffer, '\n');
    line, rest := buffer[..k], buffer[k + 1..];
    assert buffer == buffer[..k] + [buffer[k]] + buffer[k + 1..];
  }

  /** `streambuf::consume`: discards n bytes, or all there are. */
  method Consume(buffer: string, n: nat) returns (rest: string)
    ensures rest == if n <= |buffer| then buffer[n..] else ""
  {
    rest := buffer[if n < |buffer| then n else |buffer|..];
  }
}
