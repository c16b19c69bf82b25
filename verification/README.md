# Kinect body-frame server, modelled in Dafny

`server.js` bridges a Kinect v2 sensor to browser clients over WebSocket.
When a client connects, the server sends it one `constants` message. That
message holds the sensor library's `JointType`, `HandState` and
`TrackingState` tables, keeping only their number- and string-valued entries,
and the fixed 512×424 canvas size. The first client to connect opens the
sensor's body reader, and the last one to leave closes it. For every sensor
frame, the server normalises every non-falsy entry of the frame's `bodies`
array into the wire format, whether or not that body is tracked, and sends
the result to every client whose socket is open. A send that throws is
caught and logged.

The model has four modules:

- `Js` (`js.dfy`): the JavaScript values the server inspects. It covers
  `typeof` number/string, truthiness, nullishness, and plain objects as
  ordered key/value entries in `Object.keys` order.
- `Enums` (`enums.dfy`): `serializeEnum`. `EnumTable` is the specification,
  and the method `SerializeEnum` is the source's key-by-key loop, proved to
  compute it.
- `Frames` (`frames.dfy`): the frame normaliser, meaning `mapJointToColor`,
  the per-body joint loop (`FillJoints`, proved against `NormalizeJoints`)
  and `.map(...).filter(Boolean)` over the bodies. Each step is stated
  against declarative predicates (`SlotNormalized`, `JointsNormalized`,
  `BodyNormalized`). Source objects are immutable datatype values, so "the
  source body is never modified" holds by construction.
- `Server` (`server.dfy`): the class `BodyServer`, holding `wss.clients` as a
  set. It also keeps a log of every message sent to each socket, the log of
  calls made on the sensor's body reader, and whether the last open
  succeeded. `Valid()` is the session invariant, and every method keeps it:
  - each socket's log starts with the constants message, and only body frames
    follow;
  - the reader calls alternate, opening first;
  - an open call is outstanding exactly while the client set is non-empty.

The sensor library is a collaborator. Its enum tables are constructor
arguments. Whether `openBodyReader()` throws is a parameter of `Connect`.
Which sockets are OPEN and which sends throw are parameters of `Broadcast`
and `OnBodyFrame`.

The canvas size is fixed at 512×424 (server.js:46-47 and 76-77). A rejected
`closeBodyReader()` is swallowed silently (server.js:64). The model follows
the code in both.

## Model

| member | source | states |
|---|---|---|
| `Enums.EnumTable` | server.js:28-35 | an entry is in the table exactly when it is an entry of the input object whose value is a number or a string, so other keys are dropped and kept values are unchanged; the table is no longer than the input |
| `Enums.EnumTableConcat` | server.js:28-35 | the table of a concatenation is the concatenation of the tables, so kept entries keep their original order |
| `Enums.EnumTableDistinctKeys` | server.js:28-35 | a table built from an object with distinct keys has distinct keys, so it is itself a valid object |
| `Enums.SerializeEnum` | server.js:28-35 | the `for...of` loop that fills `out` key by key produces exactly `EnumTable` of its input |
| `Frames.MapJointToColor` | server.js:74-79 | an absent joint gives (0,0); for a present joint each pixel coordinate is `ScaledFrom` its depth coordinate: 0 when that is null or undefined, otherwise depth×512 (x) or depth×424 (y) |
| `Frames.ColorWithinCanvas` | server.js:74-79 | depth coordinates in [0,1] land inside the 512×424 canvas |
| `Frames.NormalizeJointsCorrect` | server.js:110-128 | the `joints` object of a sent body has the source's keys in the same order; a falsy joint is stored unchanged; a present joint copies depthX/Y, cameraX/Y/Z and trackingState, and its colorX/colorY follow from its own depth coordinates |
| `Frames.FillJoints` | server.js:110-129 | the joint loop builds the `joints` object that `NormalizeJoints` describes, with the properties above |
| `Frames.NormalizeBodyCorrect` | server.js:107-135 | a sent body keeps the source's other properties, copies leftHandState, rightHandState, tracked and trackingId, and normalises its joints; a body without joints gets an empty `joints` object |
| `Frames.NormalizeBodies` | server.js:105-138 | the output is no longer than the input: falsy bodies are dropped, never null-padded |
| `Frames.NormalizeBodiesKeepsPresent` | server.js:106-137 | the normalisation of every present source body appears in the output |
| `Frames.NormalizeBodiesSources` | server.js:106-137 | every sent body is the normalisation of some present source body |
| `Frames.NormalizeBodiesConcat` | server.js:106-137 | normalising a concatenation is concatenating the normalisations, so survivors keep their relative input order |
| `Frames.NormalizeBodiesLength` | server.js:106-137 | the output is as long as the input exactly when no body is falsy |
| `Frames.EmptyFrameYieldsNoBodies` | server.js:83-91 | a falsy frame, a missing or non-array `bodies`, or an empty array yields the empty body list |
| `Frames.NoBodiesIffAllFalsy` | server.js:83-138 | the body list is empty exactly when every entry of the bodies array is falsy |
| `Server.BodyServer.constructor` | server.js:4-6 | the server starts with no clients, nothing sent, no reader calls and the reader closed, and the session invariant holds |
| `Server.BodyServer.Connect` | server.js:37-59 | the socket joins the set and has been sent exactly the constants message (enum tables from `serializeEnum`, 512×424); `openBodyReader` is called exactly when the set has size 1; a throwing open leaves the reader closed but the connection in place; the session invariant is kept |
| `Server.BodyServer.Disconnect` | server.js:61-67 | the socket leaves the set; `closeBodyReader` is called exactly when the set is empty, and the reader then counts as closed; nothing is sent; the session invariant is kept |
| `Server.BodyServer.Broadcast` | server.js:141-149 | each client in the set that is OPEN and whose send does not throw gets the message appended once; every other log is unchanged; the client set and the reader state are unchanged |
| `Server.BodyServer.OnBodyFrame` | server.js:81-153 | every frame, including one without bodies, is broadcast as a `bodyFrame` message holding `NormalizeFrame` of the frame, with the delivery rules of `Broadcast` |
| `Server.SingleClientSession` | server.js:37-67 | one client connecting and leaving causes exactly one open and then one close, and the client is sent only the constants message |
| `Server.OverlappingSessions` | server.js:37-67 | with two overlapping clients, the second connect and the first disconnect make no reader call; the reader is opened once and closed once |
| `Server.FailingSendIsolated` | server.js:141-149 | when the send to one of two clients throws, the other still receives the frame, and the failing client stays in the set with only the constants in its log |

## Left out

- Sensor and socket bring-up (`new Kinect2()`, `kinect.open()` with `process.exit(1)`, `new WebSocketServer`, server.js:5-13) is foreign-library I/O. The sensor is reduced to the recorded `openBodyReader`/`closeBodyReader` calls.
- The process-level handlers for `uncaughtException`, `unhandledRejection` and `SIGINT` (server.js:20-25, 155-161) are runtime plumbing.
- `JSON.stringify` and console logging: messages are the `Message` datatype, and logging is dropped. The model therefore does not tell `null` from `undefined` in depth coordinates. Both are `None`, and both are copied as they are.
- `Server.BodyServer.OnBodyFrame`: in the source, `JSON.stringify` (server.js:88, 140) throws on a BigInt or on a cyclic value that `{...body}` (server.js:109) copied. The outer `catch` (server.js:150-152) then logs it, and no client gets that frame. The model assumes serialisation succeeds, so every frame is broadcast.
- `Server.BodyServer.Connect`: the constants send on a fresh socket is assumed not to throw. In the source a throw there would skip the reader-open check. The order of the constants send and the `openBodyReader` call is also not recorded, because they go to separate logs.
- `Server.BodyServer.Disconnect`: `closeBodyReader()` returns a promise. Its asynchronous completion and its interleaving with later connects are modelled as an immediate, fire-and-forget request.
- `Server.BodyServer.Broadcast`: `wss.clients` iterates in insertion order. The model iterates the set in an unspecified order, because every socket has its own log and so the order cannot be observed. A failed send delivers nothing.
- Coordinates are reals. IEEE rounding, `NaN`, infinities and JavaScript's coercion of non-numeric depth values are not modelled. A present joint is an object, and a truthy non-object joint is not modelled.
- src/main.js (canvas renderer), tools/generate_presentation.js (slide generation) and mouse_delta.cpp (a Win32 `SendInput` wrapper) are presentation code or foreign calls, and are not part of this model.
