/** The PPM image writer and its pixel accounting (src/ppm.rs).

    The output device is a `Sink` holding the lines written so far; it
    accepts `room` more lines and then fails every write, which stands for
    any I/O error.  Lines are kept as values rather than text. */
module Ppm {

  /** A colour channel, `u8`. */
  newtype Byte = x: int | 0 <= x < 256

  /** One line of a plain-text PPM file. */
  datatype Line =
    | Magic                              // "P3": colours in ASCII
    | Size(columns: nat, rows: nat)      // "x y"
    | MaxColor(value: nat)               // "255"
    | Pixel(r: Byte, g: Byte, b: Byte)   // "r g b"

  /** The three header lines `new` writes. */
  function Header(x: nat, y: nat): seq<Line> {
    [Magic, Size(x, y), MaxColor(255)]
  }

  /** The destination of `writeln!`. */
  class Sink {
    var lines: seq<Line>
    var room: nat

    constructor (room: nat)
      ensures lines == [] && this.room == room
    {
      lines := [];
      this.room := room;
    }

    /** Appends `l` if the device has room; otherwise fails and changes
        nothing. */
    method WriteLine(l: Line) returns (ok: bool)
      modifies this
      ensures ok == (old(room) > 0)
      ensures ok ==> lines == old(lines) + [l] && room == old(room) - 1
      ensures !ok ==> lines == old(lines) && room == old(room)
    {
      if room == 0 {
        return false;
      }
      lines := lines + [l];
      room := room - 1;
      return true;
    }
  }

  /** What `write_pixel` does: the line is written, the write fails (the
      `?` returns the error), or the count passed `expected` (the assertion
      panics, after the line was written and counted). */
  datatype WriteResult = Written | IoFailed | TooManyPixels

  class Writer {
    const sink: Sink
    var written: nat
    const expected: nat

    constructor Init(sink: Sink, expected: nat)
      ensures this.sink == sink && written == 0 && this.expected == expected
    {
      this.sink := sink;
      written := 0;
      this.expected := expected;
    }

    /** `Writer::new(writer, x, y)`: writes the header, stopping at the
        first failed line, and on success starts counting at 0 of `x * y`. */
    static method New(sink: Sink, x: nat, y: nat) returns (w: Writer?)
      modifies sink
      ensures old(sink.room) >= 3 ==>
                w != null && fresh(w) && w.sink == sink && w.written == 0 && w.expected == x * y &&
                sink.lines == old(sink.lines) + Header(x, y) && sink.room == old(sink.room) - 3
      ensures old(sink.room) < 3 ==>
                w == null && sink.lines == old(sink.lines) + Header(x, y)[..old(sink.room)] && sink.room == 0
    {
      var ok := sink.WriteLine(Magic);
      if !ok {
        return null;
      }
      ok := sink.WriteLine(Size(x, y));
      if !ok {
        return null;
      }
      ok := sink.WriteLine(MaxColor(255));
      if !ok {
        return null;
      }
      w := new Writer.Init(sink, x * y);
    }

    /** `write_pixel(r, g, b)`.  A failed write leaves the count unchanged;
        a successful one appends exactly one pixel line and counts it, and
        the call succeeds exactly when the count stays within `expected`. */
    method WritePixel(r: Byte, g: Byte, b: Byte) returns (res: WriteResult)
      modifies this, sink
      ensures old(sink.room) == 0 ==>
                res == IoFailed && written == old(written) && sink.lines == old(sink.lines) && sink.room == 0
      ensures old(sink.room) > 0 ==>
                sink.lines == old(sink.lines) + [Pixel(r, g, b)] && sink.room == old(sink.room) - 1 &&
                written == old(written) + 1 &&
                (res == Written <==> written <= expected) && res != IoFailed
    {
      var ok := sink.WriteLine(Pixel(r, g, b));
      if !ok {
        return IoFailed;
      }
      written := written + 1;
      if written > expected {
        return TooManyPixels;
      }
      return Written;
    }

    /** `drop`: the assertion holds (no panic) exactly when the count
        reached `expected`. */
    method Drop() returns (ok: bool)
      ensures ok <==> written == expected
    {
      ok := written == expected;
    }
  }
}
