/** The printer snapshot of main/include/printsphere/printer_state.hpp, its fields grouped by the
    bundle that writes them, and the cloud snapshot it is merged with. */
module PrinterState {
  import opened BambuStatus

  datatype Connection = Booting | WaitingForCredentials | ReadyForLanConnect | Connecting | Online | ConnectionError

  datatype FieldSource = NoSource | Local | Cloud

  datatype Model =
    UnknownModel | A1 | A1Mini | P1P | P1S | P2S | H2C | H2D | H2DPro | H2S | X1 | X1C | X1E | X2D | A2L

  // Columns of the model capability table.

  predicate HasChamberTemperature(m: Model) {
    !(m.UnknownModel? || m.A1? || m.A1Mini? || m.P1P? || m.P1S? || m.A2L?)
  }

  predicate HasSecondaryNozzle(m: Model) {
    m.H2D? || m.H2DPro? || m.X2D?
  }

  predicate HasChamberLight(m: Model) {
    m.P1S? || HasChamberTemperature(m)
  }

  predicate SupportsLocalStatus(m: Model) {
    true
  }

  predicate PrefersCloudStatus(m: Model) {
    HasChamberTemperature(m)
  }

  datatype Capabilities = Capabilities(
    status: bool, metrics: bool, temperatures: bool, preview: bool, hms: bool, printError: bool,
    cameraJpegSocket: bool)

  const NO_CAPABILITIES: Capabilities := Capabilities(false, false, false, false, false, false, false)
  const DEFAULT_CLOUD_CAPABILITIES: Capabilities := Capabilities(true, true, true, true, true, true, false)

  datatype Status = Status(
    connection: Connection, lifecycle: Lifecycle, stage: string, detail: string,
    rawStatus: string, rawStage: string, hasError: bool)

  datatype Ui = Ui(uiStatus: string, printActive: bool, warnHms: bool)

  datatype Metrics = Metrics(
    progressPercent: real, downloadRelated: bool, remainingSeconds: nat, currentLayer: nat, totalLayers: nat,
    jobName: string, filamentWeight: real, filamentLength: real)

  datatype Temperature = Temperature(celsius: real, known: bool)

  datatype Temperatures = Temperatures(
    nozzle: Temperature, bed: Temperature, chamber: Temperature, secondary: Temperature, activeNozzle: int)

  datatype Light = Light(supported: bool, known: bool, on: bool)

  datatype Errors = Errors(
    printErrorCode: int, hmsCodes: seq<nat>, hmsAlertCount: nat, nonErrorStop: bool, showStopBanner: bool)

  /** A shared reference to an AMS snapshot; `object` stands for what it points to. */
  datatype OptAms = NoAms | SharedAms(count: nat, object: int)

  datatype Trays = Trays(hwSwitch: int, trayNow: int, trayTar: int, ams: OptAms)

  /** `blob` is 0 for a null reference. */
  datatype Preview = Preview(url: string, blob: int, title: string)

  datatype LocalMeta = LocalMeta(
    configured: bool, connected: bool, lastUpdateMs: nat, model: Model, capabilities: Capabilities,
    signatureRequired: bool)

  datatype CloudMeta = CloudMeta(
    configured: bool, connected: bool, lastUpdateMs: nat, model: Model, capabilities: Capabilities, detail: string)

  datatype Network = Network(wifiConnected: bool, wifiIp: string)

  datatype Sources = Sources(status: FieldSource, metrics: FieldSource, preview: FieldSource, camera: FieldSource)

  datatype Snapshot = Snapshot(
    status: Status, ui: Ui, metrics: Metrics, temperatures: Temperatures, light: Light, errors: Errors,
    trays: Trays, preview: Preview, local: LocalMeta, cloud: CloudMeta, resolvedSerial: string,
    network: Network, sources: Sources)

  const UNKNOWN_TEMPERATURE: Temperature := Temperature(0.0, false)

  /** A default-constructed snapshot. */
  const DEFAULT_SNAPSHOT: Snapshot := Snapshot(
    Status(Booting, Unknown, "boot", "Starting up", "", "", false),
    Ui("", false, false),
    Metrics(0.0, false, 0, 0, 0, "", 0.0, 0.0),
    Temperatures(UNKNOWN_TEMPERATURE, UNKNOWN_TEMPERATURE, UNKNOWN_TEMPERATURE, UNKNOWN_TEMPERATURE, -1),
    Light(false, false, false),
    Errors(0, [], 0, false, false),
    Trays(-1, -1, -1, NoAms),
    Preview("", 0, ""),
    LocalMeta(false, false, 0, UnknownModel, NO_CAPABILITIES, false),
    CloudMeta(false, false, 0, UnknownModel, NO_CAPABILITIES, ""),
    "", Network(false, ""), Sources(NoSource, NoSource, NoSource, NoSource))

  /** A cloud temperature is known once it has an update time. */
  datatype CloudTemperature = CloudTemperature(celsius: real, lastUpdateMs: nat)

  datatype CloudSnapshot = CloudSnapshot(
    meta: CloudMeta, resolvedSerial: string,
    lifecycle: Lifecycle, stage: string, rawStatus: string, rawStage: string, hasError: bool,
    metrics: Metrics, preview: Preview,
    nozzle: CloudTemperature, bed: CloudTemperature, chamber: CloudTemperature, secondary: CloudTemperature,
    activeNozzle: int,
    light: Light, errors: Errors, trays: Trays)
}
