/** How far a session, its hardware side and its DAW side have advanced. */
module Revisions {
  import opened WordArithmetic

  datatype Revision = Revision(session: Word64, hardware: Word64, daw: Word64)
}
