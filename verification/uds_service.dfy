/** The UDS service catalogue of ISO 14229-1 (`UdsService`,
    `UdsServiceCatalog`): each service's SID, names, the diagnostic
    sessions it is allowed in and its capability flags, with the
    session-permission and capability tests built on it. */
module UdsService {
  import opened Bits
  import opened Wrappers
  import UdsNrc

  /** The flags of the `[Flags]` enum `DiagnosticSessionMask` (Default 1,
      Programming 2, Extended 4); a mask value is the set of its flags. */
  datatype SessionFlag = DefaultFlag | ProgrammingFlag | ExtendedFlag

  type SessionMask = set<SessionFlag>

  const NoSessionMask: SessionMask := {}
  const DefaultMask: SessionMask := {DefaultFlag}
  const ProgrammingMask: SessionMask := {ProgrammingFlag}
  const ExtendedMask: SessionMask := {ExtendedFlag}
  const AllMask: SessionMask := DefaultMask + ProgrammingMask + ExtendedMask

  /** `DiagnosticSessionType`: the sub-function bytes of service 0x10. */
  const DefaultSession: byte := 0x01
  const ProgrammingSession: byte := 0x02
  const ExtendedSession: byte := 0x03

  /** The flags of the `[Flags]` enum `UdsServiceCapability`, bits 0 to 7
      in this order; a capability value is the set of its flags. */
  datatype Capability =
    | HasSubFunction
    | DataTransmission
    | StoredData
    | IoControl
    | Routine
    | DownloadUpload
    | CommMgmt
    | RoeRelated

  type Capabilities = set<Capability>

  const NoCapability: Capabilities := {}

  datatype Service =
    | DiagnosticSessionControl
    | ECUReset
    | SecurityAccess
    | CommunicationControl
    | TesterPresent
    | AccessTimingParameter
    | SecuredDataTransmission
    | ControlDTCSetting
    | ResponseOnEvent
    | LinkControl
    | ReadDataByIdentifier
    | ReadMemoryByAddress
    | ReadScalingDataByIdentifier
    | ReadDataByPeriodicIdentifier
    | DynamicallyDefineDataIdentifier
    | WriteDataByIdentifier
    | WriteMemoryByAddress
    | ClearDiagnosticInformation
    | ReadDTCInformation
    | InputOutputControlByIdentifier
    | RoutineControl
    | RequestDownload
    | RequestUpload
    | TransferData
    | RequestTransferExit

  /** `(byte)sid`. */
  function Sid(s: Service): byte
  {
    match s
    case DiagnosticSessionControl => 0x10
    case ECUReset => 0x11
    case SecurityAccess => 0x27
    case CommunicationControl => 0x28
    case TesterPresent => 0x3E
    case AccessTimingParameter => 0x83
    case SecuredDataTransmission => 0x84
    case ControlDTCSetting => 0x85
    case ResponseOnEvent => 0x86
    case LinkControl => 0x87
    case ReadDataByIdentifier => 0x22
    case ReadMemoryByAddress => 0x23
    case ReadScalingDataByIdentifier => 0x24
    case ReadDataByPeriodicIdentifier => 0x2A
    case DynamicallyDefineDataIdentifier => 0x2C
    case WriteDataByIdentifier => 0x2E
    case WriteMemoryByAddress => 0x3D
    case ClearDiagnosticInformation => 0x14
    case ReadDTCInformation => 0x19
    case InputOutputControlByIdentifier => 0x2F
    case RoutineControl => 0x31
    case RequestDownload => 0x34
    case RequestUpload => 0x35
    case TransferData => 0x36
    case RequestTransferExit => 0x37
  }

  /** `(UdsService)b` names a service exactly when `b` is one of the
      enum's values. */
  function ServiceOf(b: byte): Option<Service>
  {
    match b
    case 0x10 => Some(DiagnosticSessionControl)
    case 0x11 => Some(ECUReset)
    case 0x27 => Some(SecurityAccess)
    case 0x28 => Some(CommunicationControl)
    case 0x3E => Some(TesterPresent)
    case 0x83 => Some(AccessTimingParameter)
    case 0x84 => Some(SecuredDataTransmission)
    case 0x85 => Some(ControlDTCSetting)
    case 0x86 => Some(ResponseOnEvent)
    case 0x87 => Some(LinkControl)
    case 0x22 => Some(ReadDataByIdentifier)
    case 0x23 => Some(ReadMemoryByAddress)
    case 0x24 => Some(ReadScalingDataByIdentifier)
    case 0x2A => Some(ReadDataByPeriodicIdentifier)
    case 0x2C => Some(DynamicallyDefineDataIdentifier)
    case 0x2E => Some(WriteDataByIdentifier)
    case 0x3D => Some(WriteMemoryByAddress)
    case 0x14 => Some(ClearDiagnosticInformation)
    case 0x19 => Some(ReadDTCInformation)
    case 0x2F => Some(InputOutputControlByIdentifier)
    case 0x31 => Some(RoutineControl)
    case 0x34 => Some(RequestDownload)
    case 0x35 => Some(RequestUpload)
    case 0x36 => Some(TransferData)
    case 0x37 => Some(RequestTransferExit)
    case _ => None
  }

  /** The cast and `(byte)` undo each other. */
  lemma ServiceOfSid(s: Service, b: byte)
    ensures ServiceOf(Sid(s)) == Some(s)
    ensures ServiceOf(b).Some? ==> Sid(ServiceOf(b).value) == b
  {
  }

  /** The row of `UdsServiceCatalog._db` stored under service `s`: the
      table has one row for every enum value. */
  function Entry(s: Service): Info
  {
    match s
    case DiagnosticSessionControl => Info(DiagnosticSessionControl, "DSC", "DiagnosticSessionControl", "診斷會談控制", AllMask, {CommMgmt, HasSubFunction})
    case ECUReset => Info(ECUReset, "ER", "ECUReset", "ECU 重置", AllMask, {CommMgmt, HasSubFunction})
    case SecurityAccess => Info(SecurityAccess, "SA", "SecurityAccess", "安全存取", AllMask, {CommMgmt, HasSubFunction})
    case CommunicationControl => Info(CommunicationControl, "CC", "CommunicationControl", "通訊控制", AllMask, {CommMgmt, HasSubFunction})
    case TesterPresent => Info(TesterPresent, "TP", "TesterPresent", "測試器在線", AllMask, {CommMgmt, HasSubFunction})
    case AccessTimingParameter => Info(AccessTimingParameter, "ATP", "AccessTimingParameter", "時序參數存取", ExtendedMask + ProgrammingMask, {CommMgmt})
    case SecuredDataTransmission => Info(SecuredDataTransmission, "SDT", "SecuredDataTransmission", "安全資料傳輸", ExtendedMask + ProgrammingMask, {CommMgmt})
    case ControlDTCSetting => Info(ControlDTCSetting, "CDTCS", "ControlDTCSetting", "DTC 控制設定", AllMask, {CommMgmt, HasSubFunction})
    case ResponseOnEvent => Info(ResponseOnEvent, "ROE", "ResponseOnEvent", "事件回應", ExtendedMask, {CommMgmt, HasSubFunction, RoeRelated})
    case LinkControl => Info(LinkControl, "LC", "LinkControl", "連結控制", ExtendedMask, {CommMgmt, HasSubFunction})
    case ReadDataByIdentifier => Info(ReadDataByIdentifier, "RDBI", "ReadDataByIdentifier", "讀取資料識別碼", DefaultMask + ExtendedMask, {DataTransmission})
    case ReadMemoryByAddress => Info(ReadMemoryByAddress, "RMBA", "ReadMemoryByAddress", "讀取記憶體位址", ExtendedMask + ProgrammingMask, {DataTransmission})
    case ReadScalingDataByIdentifier => Info(ReadScalingDataByIdentifier, "RSDBI", "ReadScalingDataByIdentifier", "讀取縮放資料識別碼", ExtendedMask, {DataTransmission})
    case ReadDataByPeriodicIdentifier => Info(ReadDataByPeriodicIdentifier, "RDBPI", "ReadDataByPeriodicIdentifier", "週期性讀取識別碼", ExtendedMask, {DataTransmission})
    case DynamicallyDefineDataIdentifier => Info(DynamicallyDefineDataIdentifier, "DDDI", "DynamicallyDefineDataIdentifier", "動態定義資料識別碼", ExtendedMask + ProgrammingMask, {DataTransmission, HasSubFunction})
    case WriteDataByIdentifier => Info(WriteDataByIdentifier, "WDBI", "WriteDataByIdentifier", "寫入資料識別碼", ExtendedMask + ProgrammingMask, {DataTransmission})
    case WriteMemoryByAddress => Info(WriteMemoryByAddress, "WMBA", "WriteMemoryByAddress", "寫入記憶體位址", ProgrammingMask, {DataTransmission})
    case ClearDiagnosticInformation => Info(ClearDiagnosticInformation, "CDTCI", "ClearDiagnosticInformation", "清除診斷資訊", DefaultMask + ExtendedMask, {StoredData})
    case ReadDTCInformation => Info(ReadDTCInformation, "RDTCI", "ReadDTCInformation", "讀取 DTC 資訊", DefaultMask + ExtendedMask, {StoredData, HasSubFunction})
    case InputOutputControlByIdentifier => Info(InputOutputControlByIdentifier, "IOCBI", "InputOutputControlByIdentifier", "I/O 控制", ExtendedMask, {IoControl})
    case RoutineControl => Info(RoutineControl, "RC", "RoutineControl", "例程控制", ExtendedMask + ProgrammingMask, {Routine, HasSubFunction})
    case RequestDownload => Info(RequestDownload, "RD", "RequestDownload", "請求下載", ProgrammingMask, {DownloadUpload, HasSubFunction})
    case RequestUpload => Info(RequestUpload, "RU", "RequestUpload", "請求上傳", ProgrammingMask, {DownloadUpload, HasSubFunction})
    case TransferData => Info(TransferData, "TD", "TransferData", "資料傳輸", ProgrammingMask, {DownloadUpload})
    case RequestTransferExit => Info(RequestTransferExit, "RTSE", "RequestTransferExit", "結束傳輸", ProgrammingMask, {DownloadUpload, HasSubFunction})
  }

  /** `UdsServiceInfo`. */
  datatype Info = Info(
    service: Service,
    mnemonic: string,
    english: string,
    chinese: string,
    allowedSessions: SessionMask,
    capabilities: Capabilities)

  /** `TryGetInfo` for the service byte `sid`: the row, if `sid` names a
      service (`Get`, `_db[sid]`, throws where this is `None`). */
  function Get(sid: byte): (r: Option<Info>)
    ensures r.Some? <==> ServiceOf(sid).Some?
    ensures r.Some? ==> r.value == Entry(ServiceOf(sid).value)
  {
    if ServiceOf(sid).Some? then Some(Entry(ServiceOf(sid).value)) else None
  }

  /** `ToMask`: a session byte to its mask flag; bytes that name no
      session map to `None`. */
  function ToMask(session: byte): SessionMask
  {
    if session == DefaultSession then DefaultMask
    else if session == ProgrammingSession then ProgrammingMask
    else if session == ExtendedSession then ExtendedMask
    else NoSessionMask
  }

  /** `IsAllowedIn`. */
  predicate IsAllowedIn(sid: byte, session: byte)
  {
    Get(sid).Some? && Get(sid).value.allowedSessions * ToMask(session) != {}
  }

  /** `Has`. */
  predicate Has(sid: byte, cap: Capabilities)
  {
    Get(sid).Some? && Get(sid).value.capabilities * cap != {}
  }

  /** `PositiveResponseSid`: the SID plus 0x40, truncated to a byte. */
  function PositiveResponseSid(s: Service): (r: byte)
    ensures UdsNrc.IsPositive(Sid(s), [r])
    ensures r != 0x7F
  {
    (Sid(s) + 0x40) % 256
  }

  /** Every row is stored under the service it describes, so the info
      found for a byte is the info of the service that byte names. */
  lemma CatalogKeysAreSids(sid: byte)
    ensures Get(sid).Some? ==> Sid(Get(sid).value.service) == sid
  {
    if ServiceOf(sid).Some? {
      ServiceOfSid(ServiceOf(sid).value, sid);
      EntryService(ServiceOf(sid).value);
    }
  }

  lemma EntryService(s: Service)
    ensures Entry(s).service == s
  {
  }

  /** Every enum value has a row, found under its own SID, so `Get`
      never fails on one. */
  lemma CatalogComplete(s: Service)
    ensures Get(Sid(s)).Some? && Get(Sid(s)).value.service == s
  {
    ServiceOfSid(s, Sid(s));
    EntryService(s);
  }

  /** Two services never share a SID. */
  lemma SidInjective(s: Service, t: Service)
    requires Sid(s) == Sid(t)
    ensures s == t
  {
    ServiceOfSid(s, Sid(s));
    ServiceOfSid(t, Sid(t));
  }

  /** Exactly the three defined sessions have a mask, a single flag of
      `All`. */
  lemma ToMaskFlags(session: byte)
    ensures ToMask(session) != NoSessionMask <==> DefaultSession <= session <= ExtendedSession
    ensures ToMask(session) <= AllMask
    ensures |ToMask(session)| <= 1
  {
  }

  /** A session byte that names no session is never allowed, and nor is
      a byte that names no service. */
  lemma NotAllowedOutsideCatalogue(sid: byte, session: byte)
    requires !(DefaultSession <= session <= ExtendedSession) || ServiceOf(sid).None?
    ensures !IsAllowedIn(sid, session)
  {
  }

  /** Testing a mask against one flag is testing that flag. */
  lemma MeetsSingleton<T>(m: set<T>, f: T)
    ensures m * {f} != {} <==> f in m
  {
    if f in m {
      assert f in m * {f};
    }
  }

  /** A session's test is membership of its flag. */
  lemma AllowedIsFlag(sid: byte, session: byte, f: SessionFlag)
    requires ToMask(session) == {f}
    ensures IsAllowedIn(sid, session) <==> Get(sid).Some? && f in Get(sid).value.allowedSessions
  {
    if Get(sid).Some? {
      MeetsSingleton(Get(sid).value.allowedSessions, f);
    }
  }

  /** The download and upload services are allowed in the programming
      session and in no other. */
  lemma DownloadOnlyInProgramming(s: Service, session: byte)
    requires s in {RequestDownload, RequestUpload, TransferData, RequestTransferExit}
    ensures IsAllowedIn(Sid(s), session) <==> session == ProgrammingSession
  {
    ServiceOfSid(s, Sid(s));
    if session == DefaultSession {
      AllowedIsFlag(Sid(s), session, DefaultFlag);
    } else if session == ProgrammingSession {
      AllowedIsFlag(Sid(s), session, ProgrammingFlag);
    } else if session == ExtendedSession {
      AllowedIsFlag(Sid(s), session, ExtendedFlag);
    }
  }

  /** A service tagged `All` is allowed in each of the three sessions. */
  lemma AllMaskEverywhere(sid: byte, session: byte)
    requires Get(sid).Some? && Get(sid).value.allowedSessions == AllMask
    ensures IsAllowedIn(sid, session) <==> DefaultSession <= session <= ExtendedSession
  {
    if session == DefaultSession {
      AllowedIsFlag(sid, session, DefaultFlag);
    } else if session == ProgrammingSession {
      AllowedIsFlag(sid, session, ProgrammingFlag);
    } else if session == ExtendedSession {
      AllowedIsFlag(sid, session, ExtendedFlag);
    }
  }

  /** What the tester can do before leaving the default session. */
  lemma DefaultSessionServices(s: Service)
    ensures IsAllowedIn(Sid(s), DefaultSession) <==>
      s in {DiagnosticSessionControl, ECUReset, SecurityAccess, CommunicationControl, TesterPresent,
            ControlDTCSetting, ReadDataByIdentifier, ClearDiagnosticInformation, ReadDTCInformation}
  {
    ServiceOfSid(s, Sid(s));
    AllowedIsFlag(Sid(s), DefaultSession, DefaultFlag);
  }

  /** `Has` with a combined flag set is `Has` with one of its flags;
      `None` is never held. */
  lemma HasUnion(sid: byte, a: Capabilities, b: Capabilities)
    ensures Has(sid, a + b) <==> Has(sid, a) || Has(sid, b)
    ensures !Has(sid, NoCapability)
  {
    if Get(sid).Some? {
      var c := Get(sid).value.capabilities;
      assert c * (a + b) == (c * a) + (c * b);
    }
  }

  /** TransferData takes no sub-function byte; the session and download
      control services do. */
  lemma SubFunctionFlags()
    ensures !Has(Sid(TransferData), {HasSubFunction})
    ensures Has(Sid(DiagnosticSessionControl), {HasSubFunction})
    ensures Has(Sid(RequestDownload), {HasSubFunction})
  {
    MeetsSingleton(Entry(TransferData).capabilities, HasSubFunction);
    MeetsSingleton(Entry(DiagnosticSessionControl).capabilities, HasSubFunction);
    MeetsSingleton(Entry(RequestDownload).capabilities, HasSubFunction);
  }
}
