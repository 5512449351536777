/** Limits shared by several components. */
module Constants {
  const MAX_DURATION_SECS := 3 * 60 * 60
  const MIN_LIKES_COUNT := 20
  const MIN_VIEWS_COUNT := 1000
  const DAILY_QUOTA_SECS := 10 * 60 * 60
  const SENTENCE_BATCH_SIZE := 25
  const FETCH_LEASE_SECS := 5 * 60
  const ASR_LEASE_SECS := 60 * 60
}
