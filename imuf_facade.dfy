/**
 * The IMUF9001 entry points as one interface with three implementations: the
 * full driver (accgyro_imuf9001_betaflight.c), the adapter (adapter.c) and
 * the stub (accgyro_imuf9001_stub.c). For each entry point a function over
 * the variant says what it does, a dispatcher runs the variant's own code
 * against that function, and lemmas set the variants side by side.
 */
module ImufFacade {
  import opened Wrappers
  import opened Accgyro
  import opened Platform
  import D = ImufDriver
  import S = ImufSession
  import A = ImufAdapter
  import T = ImufStub

  /** Which file provides the entry points. */
  datatype Variant = Full | Adapter | Stub

  /** The functions a detect entry point installs in a device record. */
  datatype Hooks = Hooks(initFn: FnRef, readFn: FnRef)

  // ---------------------------------------------------------------------
  // imuf9001SpiDetect

  /** What imuf9001SpiDetect returns in each variant. */
  function DetectResult(v: Variant): DetectTag {
    match v
    case Full => Imuf9001Spi
    case Adapter => GyroImuf9001
    case Stub => NotDetected
  }

  function SpiDetect(v: Variant): (r: DetectTag)
    ensures r == DetectResult(v)
  {
    match v
    case Full => S.SpiDetect()
    case Adapter => A.SpiDetect()
    case Stub => T.SpiDetect()
  }

  /** Only the stub reports no device. */
  lemma SpiDetectSideBySide(v: Variant)
    ensures SpiDetect(v) == NotDetected <==> v == Stub
  {
  }

  // ---------------------------------------------------------------------
  // imufSpiGyroDetect

  /** The hooks imufSpiGyroDetect installs for a device whose detection
      result is `sensor`, or None when it declines the device. */
  function GyroClaim(v: Variant, sensor: DetectTag): Option<Hooks> {
    match v
    case Full => if sensor == Imuf9001Spi then Some(Hooks(ImufSpiGyroInit, ImufReadGyroData)) else None
    case Adapter => Some(Hooks(ImufSpiGyroInit, ImufReadAccData))
    case Stub => None
  }

  method GyroDetect(v: Variant, gyro: GyroDev) returns (found: bool)
    modifies gyro
    ensures found == GyroClaim(v, old(gyro.detectedSensor)).Some?
    ensures found ==> Hooks(gyro.initFn, gyro.readFn) == GyroClaim(v, old(gyro.detectedSensor)).value
    ensures !found ==> gyro.initFn == old(gyro.initFn) && gyro.readFn == old(gyro.readFn)
    ensures gyro.scale == if found && v == Full then 1.0 else old(gyro.scale)
    ensures gyro.detectedSensor == old(gyro.detectedSensor)
  {
    match v
    case Full => found := S.GyroDetect(gyro);
    case Adapter => found := A.GyroDetect(gyro);
    case Stub => found := T.GyroDetect(gyro);
  }

  /** Every variant that claims the gyro installs imufSpiGyroInit; the full
      driver claims it exactly when detection found IMUF_9001_SPI, the
      adapter always, with the accelerometer reader as the gyro's reader,
      and the stub never. */
  lemma GyroClaimSideBySide(v: Variant, sensor: DetectTag)
    ensures GyroClaim(v, sensor).Some? ==> GyroClaim(v, sensor).value.initFn == ImufSpiGyroInit
    ensures GyroClaim(Full, sensor).Some? <==> sensor == Imuf9001Spi
    ensures GyroClaim(Full, sensor).Some? ==> GyroClaim(Full, sensor).value.readFn == ImufReadGyroData
    ensures GyroClaim(Adapter, sensor) == Some(Hooks(ImufSpiGyroInit, ImufReadAccData))
    ensures GyroClaim(Stub, sensor).None?
  {
  }

  // ---------------------------------------------------------------------
  // imufSpiAccDetect

  /** The hooks imufSpiAccDetect installs, or None when it declines. */
  function AccClaim(v: Variant): Option<Hooks> {
    if v == Stub then None else Some(Hooks(ImufSpiAccInit, ImufReadAccData))
  }

  method AccDetect(v: Variant, acc: AccDev) returns (found: bool)
    modifies acc
    ensures found == AccClaim(v).Some?
    ensures found ==> Hooks(acc.initFn, acc.readFn) == AccClaim(v).value
    ensures !found ==> acc.initFn == old(acc.initFn) && acc.readFn == old(acc.readFn)
    ensures acc.acc1G == old(acc.acc1G)
  {
    match v
    case Full => found := S.AccDetect(acc);
    case Adapter => found := A.AccDetect(acc);
    case Stub => found := T.AccDetect(acc);
  }

  // ---------------------------------------------------------------------
  // imufSpiAccInit and imufSpiGyroInit

  /** acc_1G after imufSpiAccInit, from its value `before`. */
  function AccScale(v: Variant, before: int): int {
    if v == Adapter then before else IMUF_ACC_1G
  }

  method AccInit(v: Variant, acc: AccDev)
    modifies acc
    ensures acc.acc1G == AccScale(v, old(acc.acc1G))
    ensures acc.initFn == old(acc.initFn) && acc.readFn == old(acc.readFn)
  {
    match v
    case Full => S.AccInit(acc);
    case Adapter => A.AccInit(acc);
    case Stub => T.AccInit(acc);
  }

  /** The full driver and the stub both set the 2048-counts-per-g scale; the
      adapter leaves acc_1G as it was. */
  lemma AccScaleSideBySide(before: int)
    ensures AccScale(Full, before) == AccScale(Stub, before) == 2048
    ensures AccScale(Adapter, before) == before
  {
  }

  /**
   * imufSpiGyroInit: only the full driver talks to the device (the SETUP
   * retries and, on success, mpuGyroInit); the adapter and the stub leave
   * the board and the gyro as they were.
   */
  method GyroInit(v: Variant, drv: S.Imuf9001, hal: Board, gyro: GyroDev)
      returns (ghost runs: seq<D.Run>, ghost sessions: seq<seq<Event>>)
    modifies hal
    ensures v == Full ==> runs != [] && hal.trace == old(hal.trace) + S.InitTrace(sessions, D.Last(runs).ok)
    ensures v == Full ==> S.StopsAtFirst(S.SetupAcceptsAny, runs, D.SETUP_ATTEMPTS)
    ensures v == Full ==> sessions == S.CallEvents(S.SetupEnv(hal.ready, hal.link, drv.settings), runs, old(hal.polls), old(hal.exchanges))
    ensures v != Full ==> hal.trace == old(hal.trace) && hal.polls == old(hal.polls)
    ensures v != Full ==> hal.exchanges == old(hal.exchanges)
    ensures gyro.initFn == old(gyro.initFn) && gyro.readFn == old(gyro.readFn) && gyro.scale == old(gyro.scale)
  {
    runs, sessions := [], [];
    match v
    case Full => runs, sessions := drv.GyroInit(hal);
    case Adapter => A.GyroInit(gyro);
    case Stub => T.GyroInit(gyro);
  }

  // ---------------------------------------------------------------------
  // The readers

  /** What imufReadAccData returns, or None where the variant has none. */
  function ReadAccData(v: Variant): Option<bool> {
    match v
    case Full => Some(S.ReadAccData())
    case Adapter => Some(A.ReadAccData())
    case Stub => None
  }

  /** What imufReadGyroData returns, or None where the variant has none. */
  function ReadGyroData(v: Variant): Option<bool> {
    if v == Full then Some(S.ReadGyroData()) else None
  }

  /** The adapter's accelerometer reader reports a sample and the full
      driver's does not; the stub defines no reader, and only the full
      driver defines imufReadGyroData, which never reports one. */
  lemma ReadersSideBySide()
    ensures ReadAccData(Adapter) == Some(true) && ReadAccData(Full) == Some(false)
    ensures ReadAccData(Stub).None?
    ensures ReadGyroData(Full) == Some(false) && ReadGyroData(Adapter).None? && ReadGyroData(Stub).None?
  {
  }

  // ---------------------------------------------------------------------
  // The globals and calibration

  /** imufCurrentVersion and isImufCalibrating at start-up, or None where
      the variant does not define them. */
  method InitialGlobals(v: Variant, settings: S.ImufSettings) returns (version: Option<bv16>, calibrating: Option<bv32>)
    ensures v == Full ==> version == Some(D.IMUF_FIRMWARE_MIN_VERSION) && calibrating == Some(D.IMUF_NOT_CALIBRATING)
    ensures v == Stub ==> version == Some(0) && calibrating == Some(0)
    ensures v == Adapter ==> version.None? && calibrating.None?
  {
    match v
    case Full =>
      var drv := new S.Imuf9001(settings);
      version, calibrating := Some(drv.currentVersion), Some(drv.isCalibrating);
    case Stub =>
      var st := new T.StubState();
      version, calibrating := Some(st.currentVersion), Some(st.isCalibrating);
    case Adapter =>
      version, calibrating := None, None;
  }

  /**
   * isImufCalibrating at start-up, after imufStartCalibration and after
   * imufEndCalibration: the full driver raises the flag and lowers it
   * again, the stub's flag never leaves 0, and the adapter has none.
   */
  method CalibrationFlags(v: Variant, settings: S.ImufSettings) returns (flags: Option<(bv32, bv32, bv32)>)
    ensures v == Full ==> flags == Some((D.IMUF_NOT_CALIBRATING, D.IMUF_IS_CALIBRATING, D.IMUF_NOT_CALIBRATING))
    ensures v == Stub ==> flags == Some((0, 0, 0))
    ensures v == Adapter ==> flags.None?
  {
    match v
    case Full =>
      var drv := new S.Imuf9001(settings);
      var before := drv.isCalibrating;
      drv.StartCalibration();
      var during := drv.isCalibrating;
      drv.EndCalibration();
      flags := Some((before, during, drv.isCalibrating));
    case Stub =>
      var st := new T.StubState();
      var before := st.isCalibrating;
      st.StartCalibration();
      var during := st.isCalibrating;
      st.EndCalibration();
      flags := Some((before, during, st.isCalibrating));
    case Adapter =>
      flags := None;
  }
}
