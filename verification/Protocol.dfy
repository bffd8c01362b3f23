/** The parts of the bus protocol the application logic decides on. */
module Protocol {
  import opened Bytes

  datatype ToggleItem =
    | Pump1 | Pump2 | Pump3 | Pump4 | Pump5 | Pump6
    | Blower
    | Light1 | Light2 | Light3 | Light4
    | Mister | Aux1 | Aux2
    | HoldMode | HeatingMode | TemperatureRange
    | CirculationPump | SoakMode | NormalOperation | ClearNotification
  {
    function PumpIndex(): Option<nat> {
      match this
      case Pump1 => Some(0)
      case Pump2 => Some(1)
      case Pump3 => Some(2)
      case Pump4 => Some(3)
      case Pump5 => Some(4)
      case Pump6 => Some(5)
      case _ => None
    }

    function LightIndex(): Option<nat> {
      match this
      case Light1 => Some(0)
      case Light2 => Some(1)
      case Light3 => Some(2)
      case Light4 => Some(3)
      case _ => None
    }
  }

  const CLOCK_MODE: u8 := 0x02

  datatype Command =
    | ConfigurationRequest
    | Toggle(item: ToggleItem)
    | SetTemperature(temp: u8)
    | SetTime(hour: u8, minute: u8, is24h: bool)
    | SetPreference(code: u8, value: u8)
    | SetTemperatureScale(celsius: bool)
    | SettingsRequest(page: u8)
    | FilterCyclesRequest
    | InformationRequest
    | FaultLogRequest(entry: u8)
    | NothingToSend(clientId: u8)
    | Sniff(seconds: Option<u16>)
    | Reboot

  datatype PumpState = Off | Low | High
  datatype Heating = Ready | Rest | ReadyInRest
  datatype TempRange = LowRange | HighRange

  /** The fields of a status update that the application logic looks at. */
  datatype StatusFields = StatusFields(
    setTemp: Option<u8>,
    pumps: seq<PumpState>,
    lights: seq<bool>,
    blower: bool,
    isHold: bool,
    heating: Heating,
    range: TempRange)

  type Status = s: StatusFields | |s.pumps| == 6 && |s.lights| == 4
    witness StatusFields(None, [Off, Off, Off, Off, Off, Off], [false, false, false, false], false, false, Ready, LowRange)

  /** Milliseconds since `earlier`, zero if that lies in the future. */
  function Elapsed(now: nat, earlier: nat): nat {
    if now >= earlier then now - earlier else 0
  }

  // ---- Registration -------------------------------------------------------------------

  datatype RegistrationMessage =
    | NewClientQuery
    | NewClientResponse(deviceType: u8, responseHash: (u8, u8))
    | ClientIdAssignment(channel: u8, hash: (u8, u8))
    | ClientIdAck(ackChannel: u8)
    | ExistingClientRequest(requested: Option<u8>)
    | ExistingClientResponse(channel: u8, hash: (u8, u8))
    | ClearToSend(ctsChannel: u8)

  datatype RegistrationState =
    | WaitingForQuery
    | WaitingForAssignment
    | WaitingForExistingResponse
    | Registered(clientId: u8)

  datatype RegistrationAction =
    | SendNewClientResponse
    | SendClientIdAck(clientId: u8)
    | SendExistingClientRequest(channel: u8)
    | NoAction

  datatype Registration = Registration(state: RegistrationState, hash: (u8, u8), previous: Option<u8>) {
    predicate IsRegistered() {
      state.Registered?
    }

    function Reset(): Registration {
      this.(state := WaitingForQuery)
    }

    function Process(msg: RegistrationMessage): (Registration, RegistrationAction) {
      match state
      case WaitingForQuery =>
        if !msg.NewClientQuery? then (this, NoAction)
        else if previous.Some? then
          (this.(state := WaitingForExistingResponse), SendExistingClientRequest(previous.value))
        else
          (this.(state := WaitingForAssignment), SendNewClientResponse)
      case WaitingForAssignment =>
        if msg.ClientIdAssignment? && (msg.hash == (0, 0) || msg.hash == hash) then
          (this.(state := Registered(msg.channel)), SendClientIdAck(msg.channel))
        else (this, NoAction)
      case WaitingForExistingResponse =>
        if msg.ExistingClientResponse? && msg.hash == hash then
          (this.(state := Registered(msg.channel)), NoAction)
        else if msg.NewClientQuery? then
          (this.(state := WaitingForAssignment), SendNewClientResponse)
        else (this, NoAction)
      case Registered(_) => (this, NoAction)
    }
  }
}
