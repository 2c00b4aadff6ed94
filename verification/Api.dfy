/** Types that several custom resources share. */
module Api {
  datatype Phase = NoPhase | InProgress | Complete | Error
}
