/** The `[database.timescale]` settings: defaults, legacy day keys, validation and conversion to milliseconds. */
module TimescaleConfig {
  import opened Base

  const DEFAULT_CHUNK_INTERVAL_HOURS: U64 := 6
  const DEFAULT_COMPRESS_AFTER_HOURS: U64 := 12
  const HOURS_PER_DAY: U64 := 24
  const MS_PER_HOUR: U64 := 3_600_000
  const MS_PER_DAY: U64 := 86_400_000
  const MAX_RETENTION_DAYS: U64 := 106_751_991_167

  datatype Config = Config(
    enabled: Option<bool>,
    chunkIntervalHours: Option<U64>,
    compressAfterHours: Option<U64>,
    chunkIntervalDays: Option<U64>,
    compressAfterDays: Option<U64>,
    retentionDays: U64)

  const DEFAULT := Config(None, None, None, None, None, 0)

  predicate IsEnabled(c: Config) {
    c.enabled != Some(false)
  }

  function EffectiveHours(hours: Option<U64>, days: Option<U64>, default: U64): U64 {
    if hours.Some? then hours.value
    else if days.Some? then SaturatingMul(days.value, HOURS_PER_DAY)
    else default
  }

  function ChunkHours(c: Config): U64 {
    EffectiveHours(c.chunkIntervalHours, c.chunkIntervalDays, DEFAULT_CHUNK_INTERVAL_HOURS)
  }

  function CompressHours(c: Config): U64 {
    EffectiveHours(c.compressAfterHours, c.compressAfterDays, DEFAULT_COMPRESS_AFTER_HOURS)
  }

  predicate Validate(c: Config) {
    c.retentionDays <= MAX_RETENTION_DAYS && ChunkHours(c) != 0
  }

  /** A duration in milliseconds, or nothing if it does not fit a signed 64-bit column. */
  function DurationToMs(value: U64, unit: U64): Option<U64> {
    var ms := value * unit;
    if 0 <= ms <= I64_MAX then Some(ms) else None
  }

  function HoursToMs(hours: U64): Option<U64> {
    DurationToMs(hours, MS_PER_HOUR)
  }

  function DaysToMs(days: U64): Option<U64> {
    DurationToMs(days, MS_PER_DAY)
  }

  /** Validation accepts exactly the retention periods that can be converted. */
  lemma ValidRetentionConverts(c: Config)
    ensures DaysToMs(c.retentionDays).Some? <==> c.retentionDays <= MAX_RETENTION_DAYS
    ensures Validate(c) ==> DaysToMs(c.retentionDays) == Some(c.retentionDays * MS_PER_DAY)
  {
  }

  /** The schedule follows the hypertable's actual interval where that is positive. */
  function CompressionScheduleMs(actual: Option<I64>, fallback: U64): U64 {
    if actual.Some? && actual.value > 0 then actual.value else fallback
  }

  /** Hours if given, else the older key in days, else the default; in hours, at most what 64 bits hold. */
  ghost function HoursOf(hours: Option<U64>, days: Option<U64>, default: int): int {
    if hours != None then hours.value
    else if days != None then Min(24 * days.value, 0xFFFF_FFFF_FFFF_FFFF)
    else default
  }

  /** The settings that a configuration stands for: six hours and twelve hours unless it says otherwise. */
  lemma SettingsByFields(c: Config)
    ensures ChunkHours(c) == HoursOf(c.chunkIntervalHours, c.chunkIntervalDays, 6)
    ensures CompressHours(c) == HoursOf(c.compressAfterHours, c.compressAfterDays, 12)
    ensures IsEnabled(c) <==> c.enabled == None || c.enabled == Some(true)
    ensures Validate(c) <==> c.retentionDays <= 106_751_991_167 && HoursOf(c.chunkIntervalHours, c.chunkIntervalDays, 6) != 0
  {
    if c.enabled.Some? {
      if c.enabled.value {
        assert c.enabled == Some(true);
      } else {
        assert c.enabled == Some(false);
      }
    }
  }

  /** Durations are exact, and refused if they do not fit a signed 64-bit column. */
  lemma DurationsByUnits(hours: U64)
    ensures HoursToMs(hours) == if hours * 3_600_000 < 0x8000_0000_0000_0000 then Some(hours * 3_600_000) else None
    ensures DaysToMs(hours) == if hours * 86_400_000 < 0x8000_0000_0000_0000 then Some(hours * 86_400_000) else None
  {
  }
}
