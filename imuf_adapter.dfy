/**
 * The adapter variant of the IMUF9001 entry points (adapter.c): detection
 * always succeeds and installs the driver's functions without consulting
 * the device; the init functions do nothing and the accelerometer reader
 * always reports success.
 */
module ImufAdapter {
  import opened Accgyro

  /** imuf9001SpiDetect: GYRO_IMUF9001 whatever the device. */
  function SpiDetect(): (r: DetectTag)
    ensures r == GyroImuf9001
  {
    GyroImuf9001
  }

  /** imufSpiGyroDetect: always claims the gyro; its reader is the
      accelerometer reader imufReadAccData. */
  method GyroDetect(gyro: GyroDev) returns (found: bool)
    modifies gyro
    ensures found
    ensures gyro.initFn == ImufSpiGyroInit && gyro.readFn == ImufReadAccData
    ensures gyro.scale == old(gyro.scale) && gyro.detectedSensor == old(gyro.detectedSensor)
  {
    gyro.initFn := ImufSpiGyroInit;
    gyro.readFn := ImufReadAccData;
    return true;
  }

  /** imufSpiAccDetect: always claims the accelerometer. */
  method AccDetect(acc: AccDev) returns (found: bool)
    modifies acc
    ensures found
    ensures acc.initFn == ImufSpiAccInit && acc.readFn == ImufReadAccData
    ensures acc.acc1G == old(acc.acc1G)
  {
    acc.initFn := ImufSpiAccInit;
    acc.readFn := ImufReadAccData;
    return true;
  }

  /** imufSpiGyroInit: does nothing. */
  method GyroInit(gyro: GyroDev)
    ensures gyro.initFn == old(gyro.initFn) && gyro.readFn == old(gyro.readFn)
    ensures gyro.scale == old(gyro.scale) && gyro.detectedSensor == old(gyro.detectedSensor)
  {
  }

  /** imufSpiAccInit: does nothing. */
  method AccInit(acc: AccDev)
    ensures acc.initFn == old(acc.initFn) && acc.readFn == old(acc.readFn) && acc.acc1G == old(acc.acc1G)
  {
  }

  /** imufReadAccData: always reports a sample. */
  function ReadAccData(): (ok: bool)
    ensures ok
  {
    true
  }
}
