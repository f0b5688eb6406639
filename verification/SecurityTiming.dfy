// The node agent's timing constants, in milliseconds.
module SecurityTiming {

  const ACCESS_CONTROL_ENFORCEMENT_SLA_MS := 5 * 60_000
  const LOCAL_SECURITY_RETRY_DELAY_MS := 10_000
  const LOCAL_STATE_INTEGRITY_CHECK_INTERVAL_MS := 10_000

  const XRAY_RELOAD_COMMAND_TIMEOUT_MS := 30_000
  const XRAY_DOCKER_COMMAND_TIMEOUT_MS := 2_000
  const XRAY_SERVING_VERIFY_ATTEMPTS := 10
  const XRAY_SERVING_VERIFY_RETRY_DELAY_MS := 1_000

  const XRAY_SERVING_VERIFY_MAX_DURATION_MS :=
    XRAY_SERVING_VERIFY_ATTEMPTS * 2 * XRAY_DOCKER_COMMAND_TIMEOUT_MS +
    (XRAY_SERVING_VERIFY_ATTEMPTS - 1) * XRAY_SERVING_VERIFY_RETRY_DELAY_MS
  const XRAY_APPLY_MAX_DURATION_MS := XRAY_RELOAD_COMMAND_TIMEOUT_MS + XRAY_SERVING_VERIFY_MAX_DURATION_MS
  const XRAY_FAIL_CLOSED_MAX_DURATION_MS := 3 * XRAY_DOCKER_COMMAND_TIMEOUT_MS

  // The serving probe is one docker command; the clock probe is one chronyc command.
  const XRAY_SERVING_PROBE_MAX_DURATION_MS := XRAY_DOCKER_COMMAND_TIMEOUT_MS
  const CHRONYC_TIMEOUT_MS := 2_000

  const LOCAL_FAIL_CLOSED_RESERVE_MS := 120_000
}
