/**
 * The channel states the message families report to openHAB, and the channel names they
 * report them under (the literals of RfLinkBindingConstants).
 */
module Channels {

  /**
   * An openHAB `State`: a DecimalType (exact; float rounding is not modelled), an OnOffType,
   * a StringType, an HSBType (hue in degrees, saturation and brightness in percent), or the
   * null a map may hold.
   */
  datatype State =
    | DecimalState(value: real)
    | OnOffState(on: bool)
    | StringState(text: string)
    | HsbState(hue: int, saturation: int, brightness: int)
    | NullState

  const CommandChannel: string := "command"
  const TemperatureChannel: string := "temperature"
  const HumidityChannel: string := "humidity"
  const HumidityStatusChannel: string := "humidityStatus"
  const LowBatteryChannel: string := "lowBattery"
  const RainRateChannel: string := "rainrate"
  const RainTotalChannel: string := "raintotal"
  const WindDirectionChannel: string := "windDirection"
  const WindSpeedChannel: string := "windSpeed"
  const GustChannel: string := "gust"
  const InstantPowerChannel: string := "instantPower"
  const TotalUsageChannel: string := "totalUsage"
  const InstantAmpsChannel: string := "instantAmps"
  const TotalAmpHoursChannel: string := "totalAmpHours"
  const ColorChannel: string := "color"

  /** A reading kept in tenths, as the decimal Java obtains by dividing it by 10. */
  function Tenths(t: int): (r: real)
    ensures r * 10.0 == t as real
  {
    t as real / 10.0
  }
}
