/** The flag a user may raise at any moment and nobody lowers. */
module Cancel {

  class Cancellation {
    var raised: bool

    constructor ()
      ensures !raised
    { raised := false; }

    method Look() returns (b: bool)
      modifies this
      ensures b == raised && (old(raised) ==> raised)
    {
      var now: bool := *;
      raised := raised || now;
      b := raised;
    }
  }
}
