/**
 * The parts of the sensor framework's device records (gyroDev_t, accDev_t)
 * that the IMUF9001 entry points read or write. Function addresses are
 * modelled by the name of the function they point to.
 */
module Accgyro {

  /** Results of the detect entry points: 0 (nothing found), IMUF_9001_SPI
      (an mpuSensor_e value) and GYRO_IMUF9001 (a gyroHardware_e value). */
  datatype DetectTag = NotDetected | Imuf9001Spi | GyroImuf9001

  datatype FnRef =
    | NoFn
    | ImufSpiGyroInit
    | ImufSpiAccInit
    | ImufReadGyroData
    | ImufReadAccData

  class GyroDev {
    var detectedSensor: DetectTag   // mpuDetectionResult.sensor
    var initFn: FnRef
    var readFn: FnRef
    var scale: real

    constructor (detectedSensor: DetectTag)
      ensures this.detectedSensor == detectedSensor
      ensures initFn == NoFn && readFn == NoFn && scale == 0.0
    {
      this.detectedSensor := detectedSensor;
      initFn, readFn, scale := NoFn, NoFn, 0.0;
    }
  }

  class AccDev {
    var initFn: FnRef
    var readFn: FnRef
    var acc1G: int                  // acc_1G

    constructor ()
      ensures initFn == NoFn && readFn == NoFn && acc1G == 0
    {
      initFn, readFn, acc1G := NoFn, NoFn, 0;
    }
  }

  /** The accelerometer scale the IMUF9001 reports: 512 * 4 counts per g. */
  const IMUF_ACC_1G: int := 512 * 4
}
