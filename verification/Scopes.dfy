/** The engine's scope references and scope lists. */
module Scopes {

  /** One reference, without the padding that is neither hashed nor compared. */
  datatype ScopeRef = ScopeRef(kind: nat, sub: nat, handle: nat)

  const CHARACTER_KIND: nat := 4
  const INVALID_HANDLE: nat := 0xFFFF_FFFF

  /** Character handles are 32 bits wide. */
  type Handle = h: nat | h <= INVALID_HANDLE

  /** A growable engine array: its elements, and the identity of the buffer that holds them. */
  class ScopeList {
    var data: seq<ScopeRef>
    var buffer: nat

    /** Appending may move the elements to another buffer. */
    method PushBack(r: ScopeRef)
      modifies this
      ensures data == old(data) + [r]
    {
      data := data + [r];
      var moved: nat := *;
      buffer := moved;
    }
  }
}
