/** mcp_gateway.py: the state the gateway's threads share, one operation per critical section, as
    functions and as the class whose methods are proved against them. Message ids are their canonical
    JSON text. */
module McpGateway {
  import opened Sequences

  type Pins = map<string, string>

  datatype Catalog = Catalog(generation: nat, validated: map<string, string>, cursors: map<string, nat>)

  // A catalog entry: not an object with a string name, or a name with the digest of its inputSchema,
  // which is None when that is not an object or has no canonical form.
  datatype Tool = Malformed | Tool(name: string, digest: Option<string>)

  datatype Cursor = NoCursor | BadCursor | Next(token: string)

  datatype Response = ErrorResponse | BadResult | Page(tools: seq<Tool>, cursor: Cursor)

  function Invalidate(c: Catalog): Catalog { Catalog(c.generation + 1, map[], map[]) }

  // The loop over a page: None is a rejection.
  function Scan(pins: Pins, validated: map<string, string>, tools: seq<Tool>): Option<map<string, string>>
    decreases |tools|
  {
    if tools == [] then Some(validated)
    else
      match tools[0]
      case Malformed => None
      case Tool(name, digest) =>
        if name !in pins then Scan(pins, validated, tools[1..])
        else if name in validated || digest != Some(pins[name]) then None
        else Scan(pins, validated[name := pins[name]], tools[1..])
  }

  datatype Outcome = Accepted(catalog: Catalog) | Stale | Rejected | Errored

  // What `_validate_tool_catalog` makes of a page of the scan with this generation.
  function Judge(pins: Pins, c: Catalog, response: Response, generation: Option<nat>): Outcome {
    if generation != Some(c.generation) then Stale
    else
      match response
      case ErrorResponse => Errored
      case BadResult => Rejected
      case Page(tools, cursor) =>
        var scanned := Scan(pins, c.validated, tools);
        if scanned.None? then Rejected
        else
          match cursor
          case BadCursor => Rejected
          case Next(token) =>
            if token == "" then Rejected
            else Accepted(c.(cursors := c.cursors[token := c.generation], validated := scanned.value))
          case NoCursor =>
            if pins.Keys - scanned.value.Keys != {} then Rejected else Accepted(c.(validated := scanned.value))
  }

  // The catalog afterwards. Without pins nothing is looked at.
  function AfterPage(pins: Pins, c: Catalog, response: Response, generation: Option<nat>): Catalog {
    if pins == map[] then c
    else
      match Judge(pins, c, response, generation)
      case Accepted(catalog) => catalog
      case Stale => c
      case _ => Invalidate(c)
  }

  // Whether the client gets an error instead of the page.
  function Mismatch(pins: Pins, c: Catalog, response: Response, generation: Option<nat>): bool {
    pins != map[] && (Judge(pins, c, response, generation).Stale? || Judge(pins, c, response, generation).Rejected?)
  }

  predicate Verified(pins: Pins, c: Catalog, name: string) {
    name in pins ==> name in c.validated && c.validated[name] == pins[name]
  }

  datatype Shared = Shared(pending: set<string>, expired: set<string>, catalog: Catalog,
      catalogRequests: map<string, Option<nat>>)

  // A client's tools/list cursor parameter.
  datatype ListCursor = Absent | Text(token: string) | NotText

  function ListGeneration(c: Catalog, cursor: ListCursor): Option<nat> {
    match cursor
    case Absent => Some(c.generation)
    case Text(token) => if token in c.cursors then Some(c.cursors[token]) else None
    case NotText => None
  }

  predicate Taken(s: Shared, key: string) { key in s.pending || key in s.catalogRequests }

  // Registering tools/list under both locks; a scan from the start begins a new generation.
  function RegisterList(s: Shared, key: string, cursor: ListCursor): Shared {
    var c := if cursor.Absent? then Invalidate(s.catalog) else s.catalog;
    s.(catalog := c, catalogRequests := s.catalogRequests[key := ListGeneration(c, cursor)])
  }

  datatype Taking = Taking(wasPending: bool, isCatalog: bool, generation: Option<nat>, wasExpired: bool)

  function Looked(s: Shared, key: string): Taking {
    Taking(key in s.pending, key in s.catalogRequests,
           if key in s.catalogRequests then s.catalogRequests[key] else None, key in s.expired)
  }

  // What the reader does under the pending lock on a reply.
  function TakeReply(s: Shared, key: string): Shared {
    s.(pending := s.pending - {key}, expired := s.expired - {key}, catalogRequests := s.catalogRequests - {key})
  }

  function Expire(s: Shared, key: string): Shared {
    if key in s.pending then s.(pending := s.pending - {key}, expired := s.expired + {key}) else s
  }

  class Gateway {
    const pins: Pins
    var pending: set<string>
    var expired: set<string>
    var validated: map<string, string>
    var generation: nat
    var cursors: map<string, nat>
    var catalogRequests: map<string, Option<nat>>

    function CatalogState(): Catalog
      reads this
    {
      Catalog(generation, validated, cursors)
    }

    function Snapshot(): Shared
      reads this
    {
      Shared(pending, expired, CatalogState(), catalogRequests)
    }

    constructor (pins: Pins)
      ensures Snapshot() == Shared({}, {}, Catalog(0, map[], map[]), map[]) && this.pins == pins
    {
      this.pins := pins;
      pending, expired, validated, generation, cursors, catalogRequests := {}, {}, map[], 0, map[], map[];
    }

    method InvalidateCatalogLocked()
      modifies this`generation, this`validated, this`cursors
      ensures CatalogState() == Invalidate(old(CatalogState()))
    {
      generation := generation + 1;
      validated := map[];
      cursors := map[];
    }

    // True when the client must get an error instead of the page.
    method ValidateToolCatalog(response: Response, scan: Option<nat>) returns (mismatch: bool)
      modifies this`generation, this`validated, this`cursors
      ensures CatalogState() == AfterPage(pins, old(CatalogState()), response, scan)
      ensures mismatch == Mismatch(pins, old(CatalogState()), response, scan)
    {
      if pins == map[] {
        return false;
      }
      if scan != Some(generation) {
        return true;
      }
      if response.ErrorResponse? {
        InvalidateCatalogLocked();
        return false;
      }
      if response.BadResult? {
        InvalidateCatalogLocked();
        return true;
      }
      var scanned := ScanPage(response.tools);
      if scanned.None? {
        InvalidateCatalogLocked();
        return true;
      }
      match response.cursor {
        case BadCursor =>
          InvalidateCatalogLocked();
          return true;
        case Next(token) =>
          if token == "" {
            InvalidateCatalogLocked();
            return true;
          }
          cursors := cursors[token := generation];
        case NoCursor =>
          if pins.Keys - scanned.value.Keys != {} {
            InvalidateCatalogLocked();
            return true;
          }
      }
      validated := scanned.value;
      return false;
    }

    // The for loop of `_validate_tool_catalog`, on a copy of the validated map.
    method ScanPage(tools: seq<Tool>) returns (r: Option<map<string, string>>)
      ensures r == Scan(pins, validated, tools)
    {
      var copy := validated;
      for i := 0 to |tools|
        invariant Scan(pins, copy, tools[i..]) == Scan(pins, validated, tools)
      {
        match tools[i] {
          case Malformed => return None;
          case Tool(name, digest) =>
            if name in pins {
              if name in copy {
                return None;
              }
              if digest.None? || digest.value != pins[name] {
                return None;
              }
              copy := copy[name := digest.value];
            }
        }
      }
      return Some(copy);
    }

    method SchemaIsVerified(name: string) returns (ok: bool)
      ensures ok == Verified(pins, CatalogState(), name)
    {
      if name !in pins {
        return true;
      }
      return name in validated && validated[name] == pins[name];
    }

    // The tools/list branch of `_handle`: false is the duplicate-id refusal.
    method HandleList(key: string, cursor: ListCursor) returns (ok: bool)
      modifies this
      ensures ok == !Taken(old(Snapshot()), key)
      ensures Snapshot() == if ok then RegisterList(old(Snapshot()), key, cursor) else old(Snapshot())
    {
      if key in catalogRequests || key in pending {
        return false;
      }
      var scan: Option<nat> := None;
      match cursor {
        case Absent =>
          InvalidateCatalogLocked();
          scan := Some(generation);
        case Text(token) =>
          scan := if token in cursors then Some(cursors[token]) else None;
        case NotText =>
      }
      catalogRequests := catalogRequests[key := scan];
      return true;
    }

    // The pending-lock section of `_read_upstream`.
    method OnReply(key: string) returns (taking: Taking)
      modifies this
      ensures taking == Looked(old(Snapshot()), key) && Snapshot() == TakeReply(old(Snapshot()), key)
    {
      var scan := if key in catalogRequests then catalogRequests[key] else None;
      taking := Taking(key in pending, key in catalogRequests, scan, key in expired);
      pending := pending - {key};
      catalogRequests := catalogRequests - {key};
      expired := expired - {key};
    }

    // The pending-lock section of `_expired`: true when this timer is the one that answers.
    method OnTimer(key: string) returns (popped: bool)
      modifies this
      ensures popped == (key in old(pending)) && Snapshot() == Expire(old(Snapshot()), key)
    {
      popped := key in pending;
      if popped {
        pending := pending - {key};
        expired := expired + {key};
      }
    }
  }

  // ----- What a page can and cannot do -----

  lemma {:induction false} ScanExact(pins: Pins, validated: map<string, string>, tools: seq<Tool>)
    requires forall n :: n in validated ==> n in pins && validated[n] == pins[n]
    ensures var r := Scan(pins, validated, tools);
            r.Some? ==>
              && (forall n :: n in r.value ==> n in pins && r.value[n] == pins[n])
              && validated.Keys <= r.value.Keys
              && (forall n :: n in r.value ==> n in validated || Tool(n, Some(pins[n])) in tools)
    decreases |tools|
  {
    if tools != [] {
      match tools[0]
      case Malformed =>
      case Tool(name, digest) =>
        if name !in pins {
          ScanExact(pins, validated, tools[1..]);
        } else if name !in validated && digest == Some(pins[name]) {
          ScanExact(pins, validated[name := pins[name]], tools[1..]);
          assert tools[0] == Tool(name, Some(pins[name]));
        }
      assert tools == [tools[0]] + tools[1..];
    }
  }

  // The pinned tools of an acceptable page: well formed, as pinned, not seen before, not repeated.
  ghost predicate CleanAt(pins: Pins, validated: map<string, string>, tools: seq<Tool>, i: nat)
    requires i < |tools|
  {
    && tools[i].Tool?
    && (tools[i].name in pins ==>
          && tools[i].digest == Some(pins[tools[i].name]) && tools[i].name !in validated
          && forall j :: 0 <= j < i ==> tools[j] != tools[i])
  }

  ghost predicate Clean(pins: Pins, validated: map<string, string>, tools: seq<Tool>) {
    forall i :: 0 <= i < |tools| ==> CleanAt(pins, validated, tools, i)
  }

  lemma CleanTail(pins: Pins, validated: map<string, string>, tools: seq<Tool>, wider: map<string, string>)
    requires tools != [] && CleanAt(pins, validated, tools, 0)
    requires wider == if tools[0].name in pins then validated[tools[0].name := pins[tools[0].name]] else validated
    ensures Clean(pins, validated, tools) <==> Clean(pins, wider, tools[1..])
  {
    if Clean(pins, validated, tools) {
      forall i | 0 <= i < |tools[1..]| ensures CleanAt(pins, wider, tools[1..], i) {
        assert CleanAt(pins, validated, tools, i + 1);
        assert tools[0] != tools[i + 1] || tools[i + 1].name !in pins;
        forall j | 0 <= j < i && tools[1..][i].name in pins ensures tools[1..][j] != tools[1..][i] {
          assert tools[j + 1] != tools[i + 1];
        }
      }
    }
    if Clean(pins, wider, tools[1..]) {
      forall i | 0 <= i < |tools| ensures CleanAt(pins, validated, tools, i) {
        if i > 0 {
          assert CleanAt(pins, wider, tools[1..], i - 1);
          forall j | 0 <= j < i && tools[i].name in pins ensures tools[j] != tools[i] {
            if j > 0 {
              assert tools[1..][j - 1] != tools[1..][i - 1];
            }
          }
        }
      }
    }
  }

  // The loop accepts exactly the clean pages.
  lemma {:induction false} ScanAcceptsExactly(pins: Pins, validated: map<string, string>, tools: seq<Tool>)
    ensures Scan(pins, validated, tools).Some? <==> Clean(pins, validated, tools)
    decreases |tools|
  {
    if tools != [] {
      if CleanAt(pins, validated, tools, 0) {
        var wider := if tools[0].name in pins then validated[tools[0].name := pins[tools[0].name]] else validated;
        CleanTail(pins, validated, tools, wider);
        ScanAcceptsExactly(pins, wider, tools[1..]);
      }
    }
  }

  // The validated tools after a page: those before it, and the pinned ones it lists as pinned.
  ghost predicate Takes(pins: Pins, before: map<string, string>, tools: seq<Tool>, after: map<string, string>) {
    && (forall n :: n in after <==> n in before || (n in pins && Tool(n, Some(pins[n])) in tools))
    && (forall n :: n in after ==> after[n] == if n in before then before[n] else pins[n])
  }

  lemma {:induction false} ScanTakes(pins: Pins, validated: map<string, string>, tools: seq<Tool>)
    requires Scan(pins, validated, tools).Some?
    ensures Takes(pins, validated, tools, Scan(pins, validated, tools).value)
    decreases |tools|
  {
    if tools != [] {
      var name := tools[0].name;
      var wider := if name in pins then validated[name := pins[name]] else validated;
      ScanTakes(pins, wider, tools[1..]);
      assert tools == [tools[0]] + tools[1..];
      assert name in pins ==> tools[0] == Tool(name, Some(pins[name]));
    }
  }

  // What a page of a current scan must be: clean, with a usable cursor or, being the last, leaving no
  // pinned tool unseen.
  ghost predicate GoodPage(pins: Pins, validated: map<string, string>, response: Response) {
    && response.Page? && Clean(pins, validated, response.tools)
    && match response.cursor
       case BadCursor => false
       case Next(token) => token != ""
       case NoCursor => forall n :: n in pins ==> n in validated || Tool(n, Some(pins[n])) in response.tools
  }

  lemma JudgedExact(pins: Pins, c: Catalog, response: Response)
    ensures Judge(pins, c, response, Some(c.generation)).Accepted? <==> GoodPage(pins, c.validated, response)
  {
    if response.Page? {
      var scanned := Scan(pins, c.validated, response.tools);
      ScanAcceptsExactly(pins, c.validated, response.tools);
      if scanned.Some? {
        ScanTakes(pins, c.validated, response.tools);
        assert forall n :: n in pins.Keys - scanned.value.Keys <==> n in pins && n !in scanned.value;
      }
    }
  }

  // With tools pinned: a page of an older scan changes nothing and is an error to the client. An error of
  // upstream's own is passed on and revokes the scan. Any other answer is accepted exactly when it is a
  // good page, which adds what it lists and, unless it is the last, remembers its cursor; else it is an
  // error to the client and revokes the scan.
  lemma PageExact(pins: Pins, c: Catalog, response: Response, scan: Option<nat>)
    ensures var good := GoodPage(pins, c.validated, response);
            Mismatch(pins, c, response, scan) <==>
              pins != map[] && (scan != Some(c.generation) || (!good && !response.ErrorResponse?))
    ensures var c', good := AfterPage(pins, c, response, scan), GoodPage(pins, c.validated, response);
            if pins == map[] || scan != Some(c.generation) then c' == c
            else if !good then c' == Catalog(c.generation + 1, map[], map[])
            else && c'.generation == c.generation
                 && Takes(pins, c.validated, response.tools, c'.validated)
                 && c'.cursors == if response.cursor.Next? then c.cursors[response.cursor.token := c.generation]
                                  else c.cursors
  {
    if scan == Some(c.generation) {
      JudgedExact(pins, c, response);
      if GoodPage(pins, c.validated, response) {
        ScanTakes(pins, c.validated, response.tools);
      }
    }
  }

  // A page that ends a scan and is accepted leaves the validated map equal to the pins; a page that
  // does not is refused and revokes the whole scan.
  lemma CompletedScanIsPins(pins: Pins, c: Catalog, tools: seq<Tool>)
    requires pins != map[]
    requires forall n :: n in c.validated ==> n in pins && c.validated[n] == pins[n]
    ensures var response, scan := Page(tools, NoCursor), Some(c.generation);
            var c' := AfterPage(pins, c, response, scan);
            if Mismatch(pins, c, response, scan) then c'.validated == map[] && c'.generation == c.generation + 1
            else c'.validated == pins && c'.generation == c.generation
  {
    ScanExact(pins, c.validated, tools);
    var scanned := Scan(pins, c.validated, tools);
    if scanned.Some? && pins.Keys - scanned.value.Keys == {} {
      forall n | n in pins ensures n in scanned.value {
        assert n !in pins.Keys - scanned.value.Keys;
      }
      assert scanned.value.Keys == pins.Keys;
    }
  }
}
