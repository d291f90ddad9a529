/** The two name tables of the OBEX decoder, `opcode2str` and `hi2str`. Each
    is split into a lookup from the masked octet to a closed enumeration and
    the label printed for each member of that enumeration. */
module ObexNames {
  import opened ObexBytes

  /** The operations and response statuses the opcode table names. */
  datatype Operation =
    | Connect | Disconnect | Put | Get | Reserved | SetPath | Session | Abort
    | Continue
    | Success | Created | Accepted | NonAuthoritativeInformation | NoContent | ResetContent | PartialContent
    | MultipleChoices | MovedPermanently | MovedTemporarily | SeeOther | NotModified | UseProxy
    | BadRequest | Unauthorized | PaymentRequired | Forbidden | NotFound | MethodNotAllowed | NotAcceptable
    | ProxyAuthenticationRequired | RequestTimeout | Conflict | Gone | LengthRequired | PreconditionFailed
    | RequestedEntityTooLarge | RequestedUrlTooLarge | UnsupportedMediaType
    | InternalServerError | NotImplemented | BadGateway | ServiceUnavailable | GatewayTimeout
    | HttpVersionNotSupported
    | DatabaseFull | DatabaseLocked
    | Unknown

  /** The header identifiers the header table names. */
  datatype HeaderKind =
    | Count | Name | Type | Length | Time | Description | Target | Http | Body | EndOfBody | Who
    | ConnectionId | AppParameters | AuthChallenge | AuthResponse | CreatorId | WanUuid | ObjectClass
    | SessionParameters | SessionSequenceNumber
    | UnknownHeader

  /** The opcode values (after masking off the final bit) that the opcode
      table names: the requests 0x00-0x07 and Abort 0x7f, Continue 0x10 and
      the status families 0x20-0x26, 0x30-0x35, 0x40-0x4f, 0x50-0x55 and
      0x60-0x61. */
  predicate KnownOpcode(c: int)
  {
    (0x00 <= c <= 0x07) || c == 0x7f || c == 0x10 ||
    (0x20 <= c <= 0x26) || (0x30 <= c <= 0x35) ||
    (0x40 <= c <= 0x4f) || (0x50 <= c <= 0x55) ||
    (0x60 <= c <= 0x61)
  }

  /** The request catalog: Connect, Disconnect, Put, Get, two reserved
      slots, SetPath, Session, and Abort at 0x7f. */
  function RequestOperation(c: int): Operation
    requires 0x00 <= c <= 0x07 || c == 0x7f
  {
    if c == 0x7f then Abort
    else [Connect, Disconnect, Put, Get, Reserved, SetPath, Reserved, Session][c]
  }

  /** The switch of `opcode2str` on an opcode with its final bit cleared:
      every value outside the catalog is Unknown. */
  function OperationOf(code: int): (op: Operation)
    ensures op == Unknown <==> !KnownOpcode(code)
  {
    match code
    case 0x00 => Connect
    case 0x01 => Disconnect
    case 0x02 => Put
    case 0x03 => Get
    case 0x04 => Reserved
    case 0x05 => SetPath
    case 0x06 => Reserved
    case 0x07 => Session
    case 0x7f => Abort
    case 0x10 => Continue
    case 0x20 => Success
    case 0x21 => Created
    case 0x22 => Accepted
    case 0x23 => NonAuthoritativeInformation
    case 0x24 => NoContent
    case 0x25 => ResetContent
    case 0x26 => PartialContent
    case 0x30 => MultipleChoices
    case 0x31 => MovedPermanently
    case 0x32 => MovedTemporarily
    case 0x33 => SeeOther
    case 0x34 => NotModified
    case 0x35 => UseProxy
    case 0x40 => BadRequest
    case 0x41 => Unauthorized
    case 0x42 => PaymentRequired
    case 0x43 => Forbidden
    case 0x44 => NotFound
    case 0x45 => MethodNotAllowed
    case 0x46 => NotAcceptable
    case 0x47 => ProxyAuthenticationRequired
    case 0x48 => RequestTimeout
    case 0x49 => Conflict
    case 0x4a => Gone
    case 0x4b => LengthRequired
    case 0x4c => PreconditionFailed
    case 0x4d => RequestedEntityTooLarge
    case 0x4e => RequestedUrlTooLarge
    case 0x4f => UnsupportedMediaType
    case 0x50 => InternalServerError
    case 0x51 => NotImplemented
    case 0x52 => BadGateway
    case 0x53 => ServiceUnavailable
    case 0x54 => GatewayTimeout
    case 0x55 => HttpVersionNotSupported
    case 0x60 => DatabaseFull
    case 0x61 => DatabaseLocked
    case _ => Unknown
  }

  /** The text `opcode2str` returns for each operation. */
  function OperationLabel(op: Operation): string
  {
    match op
    case Connect => "Connect"
    case Disconnect => "Disconnect"
    case Put => "Put"
    case Get => "Get"
    case Reserved => "Reserved"
    case SetPath => "SetPath"
    case Session => "Session"
    case Abort => "Abort"
    case Continue => "Continue"
    case Success => "Success"
    case Created => "Created"
    case Accepted => "Accepted"
    case NonAuthoritativeInformation => "Non-authoritative information"
    case NoContent => "No content"
    case ResetContent => "Reset content"
    case PartialContent => "Partial content"
    case MultipleChoices => "Multiple choices"
    case MovedPermanently => "Moved permanently"
    case MovedTemporarily => "Moved temporarily"
    case SeeOther => "See other"
    case NotModified => "Not modified"
    case UseProxy => "Use Proxy"
    case BadRequest => "Bad request"
    case Unauthorized => "Unauthorized"
    case PaymentRequired => "Payment required"
    case Forbidden => "Forbidden"
    case NotFound => "Not found"
    case MethodNotAllowed => "Method not allowed"
    case NotAcceptable => "Not acceptable"
    case ProxyAuthenticationRequired => "Proxy authentication required"
    case RequestTimeout => "Request timeout"
    case Conflict => "Conflict"
    case Gone => "Gone"
    case LengthRequired => "Length required"
    case PreconditionFailed => "Precondition failed"
    case RequestedEntityTooLarge => "Requested entity too large"
    case RequestedUrlTooLarge => "Requested URL too large"
    case UnsupportedMediaType => "Unsupported media type"
    case InternalServerError => "Internal server error"
    case NotImplemented => "Not implemented"
    case BadGateway => "Bad gateway"
    case ServiceUnavailable => "Service unavailable"
    case GatewayTimeout => "Gateway timeout"
    case HttpVersionNotSupported => "HTTP version not supported"
    case DatabaseFull => "Database full"
    case DatabaseLocked => "Database locked"
    case Unknown => "Unknown"
  }

  /** The lookup of `opcode2str`: only the low seven bits take part. */
  function OpcodeName(opcode: byte): Operation
  {
    OperationOf(Low7(opcode))
  }

  /** `opcode2str`. */
  function OpcodeText(opcode: byte): string
  {
    OperationLabel(OpcodeName(opcode))
  }

  /** The switch of `hi2str` on an identifier with its encoding bits
      cleared: 0x00-0x13 are catalogued and everything above is unknown. */
  function HeaderKindOf(code: nat): (k: HeaderKind)
    ensures k == UnknownHeader <==> code >= 0x14
  {
    match code
    case 0x00 => Count
    case 0x01 => Name
    case 0x02 => Type
    case 0x03 => Length
    case 0x04 => Time
    case 0x05 => Description
    case 0x06 => Target
    case 0x07 => Http
    case 0x08 => Body
    case 0x09 => EndOfBody
    case 0x0a => Who
    case 0x0b => ConnectionId
    case 0x0c => AppParameters
    case 0x0d => AuthChallenge
    case 0x0e => AuthResponse
    case 0x0f => CreatorId
    case 0x10 => WanUuid
    case 0x11 => ObjectClass
    case 0x12 => SessionParameters
    case 0x13 => SessionSequenceNumber
    case _ => UnknownHeader
  }

  /** The text `hi2str` returns for each header kind. */
  function HeaderLabel(k: HeaderKind): string
  {
    match k
    case Count => "Count"
    case Name => "Name"
    case Type => "Type"
    case Length => "Length"
    case Time => "Time"
    case Description => "Description"
    case Target => "Target"
    case Http => "HTTP"
    case Body => "Body"
    case EndOfBody => "End of Body"
    case Who => "Who"
    case ConnectionId => "Connection ID"
    case AppParameters => "App. Parameters"
    case AuthChallenge => "Auth. Challenge"
    case AuthResponse => "Auth. Response"
    case CreatorId => "Creator ID"
    case WanUuid => "WAN UUID"
    case ObjectClass => "Object Class"
    case SessionParameters => "Session Parameters"
    case SessionSequenceNumber => "Session Sequence Number"
    case UnknownHeader => "Unknown"
  }

  /** The lookup of `hi2str`: only the low six bits take part. */
  function HeaderName(hi: byte): HeaderKind
  {
    HeaderKindOf(Low6(hi))
  }

  /** `hi2str`. */
  function HeaderText(hi: byte): string
  {
    HeaderLabel(HeaderName(hi))
  }

  /** `opcode2str` answers "Unknown" exactly for the values outside the
      catalog, since no catalogued operation is labelled "Unknown". */
  lemma OpcodeTextUnknown(opcode: byte)
    ensures OpcodeText(opcode) == "Unknown" <==> !KnownOpcode(Low7(opcode))
  {
    OperationLabelUnknown(OpcodeName(opcode));
  }

  /** Unknown is the only operation labelled "Unknown". */
  lemma OperationLabelUnknown(op: Operation)
    ensures OperationLabel(op) == "Unknown" <==> op == Unknown
  {
    // one arm per operation, so that each label is compared on its own
    match op
    case Connect => case Disconnect => case Put => case Get =>
    case Reserved => case SetPath => case Session => case Abort =>
    case Continue => case Success => case Created => case Accepted =>
    case NonAuthoritativeInformation => case NoContent => case ResetContent => case PartialContent =>
    case MultipleChoices => case MovedPermanently => case MovedTemporarily => case SeeOther =>
    case NotModified => case UseProxy => case BadRequest => case Unauthorized =>
    case PaymentRequired => case Forbidden => case NotFound => case MethodNotAllowed =>
    case NotAcceptable => case ProxyAuthenticationRequired => case RequestTimeout => case Conflict =>
    case Gone => case LengthRequired => case PreconditionFailed => case RequestedEntityTooLarge =>
    case RequestedUrlTooLarge => case UnsupportedMediaType => case InternalServerError => case NotImplemented =>
    case BadGateway => case ServiceUnavailable => case GatewayTimeout => case HttpVersionNotSupported =>
    case DatabaseFull => case DatabaseLocked => case Unknown =>
  }

  /** `hi2str` answers "Unknown" exactly for the identifiers 0x14-0x3f (in
      any encoding class). */
  lemma HeaderTextUnknown(hi: byte)
    ensures HeaderText(hi) == "Unknown" <==> Low6(hi) >= 0x14
  {
    var k := HeaderName(hi);
    if k != UnknownHeader {
      var t := HeaderLabel(k);
      assert t[0] != 'U';
    }
  }

  /** "Reserved" is the name of exactly the two unassigned request slots,
      0x04 and 0x06 (with or without the final bit). */
  lemma OpcodeNameReserved(opcode: byte)
    ensures OpcodeName(opcode) == Reserved <==> (Low7(opcode) == 0x04 || Low7(opcode) == 0x06)
  {
  }

  /** Every request opcode, final bit or not, is named from the request
      catalog. */
  lemma OpcodeNameOfRequests(opcode: byte)
    requires Low7(opcode) <= 0x07 || Low7(opcode) == 0x7f
    ensures OpcodeName(opcode) == RequestOperation(Low7(opcode))
  {
  }

  /** The final bit does not change an opcode's name. */
  lemma OpcodeNameIgnoresFinalBit(opcode: byte)
    ensures OpcodeName(opcode) == OpcodeName(Low7(opcode))
    ensures OpcodeName(opcode) == OpcodeName(Low7(opcode) + 0x80)
  {
  }

  /** The encoding bits of a header identifier do not change its name. */
  lemma HeaderNameIgnoresEncodingBits(hi: byte, enc: byte)
    requires enc == 0x00 || enc == 0x40 || enc == 0x80 || enc == 0xc0
    ensures HeaderName(hi) == HeaderName(enc + Low6(hi))
  {
  }

  /** 0x01, 0x41, 0x81 and 0xc1 are all "Name". */
  lemma HeaderTextOfNameIds()
    ensures HeaderText(0x01) == HeaderText(0x41) == HeaderText(0x81) == HeaderText(0xc1) == "Name"
  {
  }
}
