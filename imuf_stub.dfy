/**
 * The stub variant of the IMUF9001 entry points (accgyro_imuf9001_stub.c):
 * nothing is ever detected, only the accelerometer init does anything, and
 * the driver's two globals keep their initial zero.
 */
module ImufStub {
  import opened Accgyro

  /** The stub's globals isImufCalibrating and imufCurrentVersion. */
  class StubState {
    var isCalibrating: bv32
    var currentVersion: bv16

    /** Both globals start at 0. */
    constructor ()
      ensures isCalibrating == 0 && currentVersion == 0
    {
      isCalibrating, currentVersion := 0, 0;
    }

    /** imufStartCalibration: empty. */
    method StartCalibration()
      ensures isCalibrating == old(isCalibrating) && currentVersion == old(currentVersion)
    {
    }

    /** imufEndCalibration: empty. */
    method EndCalibration()
      ensures isCalibrating == old(isCalibrating) && currentVersion == old(currentVersion)
    {
    }
  }

  /** imuf9001SpiDetect: 0, not detected. */
  function SpiDetect(): (r: DetectTag)
    ensures r == NotDetected
  {
    NotDetected
  }

  /** imufSpiAccDetect: never claims the accelerometer; as a function it
      cannot touch the device. */
  function AccDetect(acc: AccDev): (found: bool)
    ensures !found
  {
    false
  }

  /** imufSpiGyroDetect: never claims the gyro and does not touch it. */
  function GyroDetect(gyro: GyroDev): (found: bool)
    ensures !found
  {
    false
  }

  /** imufSpiGyroInit: does nothing. */
  method GyroInit(gyro: GyroDev)
    ensures gyro.initFn == old(gyro.initFn) && gyro.readFn == old(gyro.readFn)
    ensures gyro.scale == old(gyro.scale) && gyro.detectedSensor == old(gyro.detectedSensor)
  {
  }

  /** imufSpiAccInit: sets acc_1G to 512 * 4 and nothing else. */
  method AccInit(acc: AccDev)
    modifies acc
    ensures acc.acc1G == IMUF_ACC_1G
    ensures acc.initFn == old(acc.initFn) && acc.readFn == old(acc.readFn)
  {
    acc.acc1G := 512 * 4;
  }
}
