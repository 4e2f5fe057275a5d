/** The clock of the forecasts: times are milliseconds, buckets are hours, a pass comes round every four. */
module Cadence {
  const HOUR_MS: int := 3_600_000
  const DAY_MS: int := 86_400_000
  const FORECAST_CADENCE_MS: int := 14_400_000
}
