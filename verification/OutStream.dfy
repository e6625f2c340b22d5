// An output stream, as far as writers use one: bytes are added at the end.
module OutStream {
  import opened Bytes

  class Sink {
    var data: seq<Byte>

    constructor ()
      ensures data == []
    {
      data := [];
    }

    method Put(bytes: seq<Byte>)
      modifies this
      ensures data == old(data) + bytes
    {
      data := data + bytes;
    }
  }
}
