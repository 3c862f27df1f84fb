/** The end of a sequence, and sequences of byte strings joined. */
module Sequences {
  import opened CTypes

  function Front<T>(s: seq<T>): seq<T>
    requires s != []
  {
    s[..|s| - 1]
  }

  function Last<T>(s: seq<T>): T
    requires s != []
  {
    s[|s| - 1]
  }

  function Concat(pieces: seq<Bytes>): Bytes {
    if pieces == [] then [] else Concat(Front(pieces)) + Last(pieces)
  }
}
