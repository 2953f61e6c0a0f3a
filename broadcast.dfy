/** The sending side of an `embassy_sync::watch::Watch`: a single slot
    holding the latest published value and a version tag that every send
    advances. Receivers are not part of this model. */
module Broadcast {

  datatype Option<T> = None | Some(value: T)

  class Watch<T> {
    /** The latest value sent, if any. */
    var slot: Option<T>
    /** How many values have been sent. */
    var version: nat

    /** A watch that has never been sent to. */
    constructor ()
      ensures slot == None && version == 0
    {
      slot := None;
      version := 0;
    }

    /** Overwrites the slot whether or not any receiver has seen the
        previous value, and advances the version. */
    method Send(v: T)
      modifies this
      ensures slot == Some(v)
      ensures version == old(version) + 1
    {
      slot := Some(v);
      version := version + 1;
    }
  }
}
