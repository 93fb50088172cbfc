# Verified model of the matf-vpn protocol

matf-vpn is a VPN whose protocol lives in plain Python: a wire codec, an authenticated key exchange, packet encryption
with key rotation, a replay window, a point-to-point forwarding loop and a multi-client server.  This project models
those parts, and three small algorithms of its benchmark tools, in Dafny and proves what they are for.
`dafny verify dfyconfig.toml` checks everything.

## How it is built

| modules | what they hold |
|---|---|
| `Outcome`, `Octets`, `Bits`, `Reals`, `Sequences`, `Lru` | exceptions as values; byte strings and ideal cryptography; Python's bit operators, `min` and `max`; lists without repeats; `OrderedDict` and least-recently-used caches |
| `Protocol`, `Transport`, `Replay`, `Ciphers`, `Handshake`, `Exchange` | packet format, receiving, replay window, encryption and rotation, key exchange, and its two loops joined by a hostile network |
| `Endpoints`, `Engine`, `Liveness`, `Network` | one tunnel end as a step machine, the class that implements it, its timing, and two ends joined by a hostile network |
| `SessionTables`, `MultiClient`, `Servers`, `MultiServer`, `ServerKeys`, `Service`, `Progress`, `Collisions` | session and route tables, the classes that update them, the server as a step machine, the classes that implement it, the keys it seals under, the server joined with one of its clients by a hostile network, what the two achieve when it delivers or is silent, and when two clients collide |
| `Holm`, `Schedule`, `Percentiles` | the three benchmark algorithms |

Objects that the program updates in place are classes here with the same fields (`ReplayWindow`,
`RotatingPacketCipher`, `TunnelEngine`, `ClientSession`, `MultiClientServerEngine`, `ClientRegistry`,
`MultiClientServer`).  Every method of such a class is proved to act on its fields exactly as a step function on values
does, exceptions included, and the theorems about whole runs are then proved of the step functions.

**Cryptography.**  An octet is a literal byte or the i-th octet of the output of a primitive, and an output is a term
recording what went into it.  Lengths, slices and concatenations are the real ones, so a wrong slice or a header in the
wrong order still makes a proof fail.

- AES-GCM opens a ciphertext exactly when it is the sealing of some plaintext under the same key, nonce and header.
- X25519 depends on the unordered pair of private scalars; the all-zero point stands for the points the library
  refuses.  HKDF, HMAC and SHA-256 are injective (section 2 of RFC 5869, section 2 of RFC 2104).
- The network delivers anything, to anyone, at any time, with one limit: octets of a ciphertext under a session key, or
  of an authentication tag under the static secret, must have been sent before by a holder of the key.  In `Exchange`,
  `Network` and `Service` "before" is in the order of the run, down to the middle of a pass.
- Pseudo-random octets have no numeric value, so a datagram with one where a header number belongs is malformed.

**Environment.**  Randomness, clock readings, shuffles, what is readable and how much of a TUN write was taken are
inputs; what was sent, and what was read from and written to the TUN device, are logs.  Times, p-values and samples are
real numbers.  An exception that escapes one pass of a loop ends the run.

## What is proved

- **Replay window.**  The shifted and masked bitmap is the set of marked numbers, and a number is refused exactly when
  it is negative, marked, or at least a window below the highest (the scheme of section 3.4.3 of RFC 4303).
- **Tunnel.**  Against the network above, everything one end writes to its TUN device the other end read from its own,
  each packet at most once; no two datagrams hold octets sealed under one key and nonce.
- **Timing.**  Keepalives never exceed one per interval, and a silent peer is noticed on pass ceil(L/I).  That last
  statement fails in one case, stated exactly: with a deadline of 2^64 + 1 intervals or more the sequence numbers run out
  first, and the exception is `OverflowError`.
- **Handshake.**  Both roles derive one secret.  With both loops running against the network, a client that returns a
  cipher meets a server that has by then returned the mirror image, for exactly the client's hello; and the two ciphers
  open a session for which the tunnel theorem holds.
- **Server.**  Over every run: the tables are in bijection and each session is vouched for by a registered client's key;
  every TUN write opened under the keys of such a session and is a valid IPv4 packet from that client's own address, none
  twice; every datagram sent is a response or the sealing of a payload addressed to its client; with fresh randomness no
  key and nonce repeat in all the server's sessions together; the hello cache is exactly the 1024 most recently used
  hellos; a repeated hello changes nothing.  Replacing a session can raise when the new key belongs to another client; the
  old session of that address is then gone, and the tables stay in bijection.
- **Service.**  A registered client, from its first hello on, and the server, with every other client in the hands of the
  network.  What the server writes for this client the client read from its TUN device, in a session whose cipher both
  share; what the client writes the server read from its own, addressed to that client, distinct writes from distinct
  reads.  If the server's randomness is fresh, that session is one and the same and the server's writes for the client
  come from distinct reads, too; without it, an evicted hello answered again with the same randomness would open a
  second session under the same keys, and repeats are excluded only within each session.
- **Progress.**  While the session is live, what either side reads and the network delivers intact the other side writes.
  But keepalives do not keep a client of the multi-client server alive: the server neither sends nor answers them, so a
  client with liveness on raises `TimeoutError` at its deadline unless the server passed on a packet for it.
- **Collisions.**  Two registered clients that use one session id from one address end the server's run: the second
  hello raises `ValueError`.
- **Codec.**  Encoding and decoding undo each other, except that an accepted byte string longer than a UDP datagram
  cannot be encoded again: the codec alone accepts up to 65551 bytes (`Protocol.AcceptedButTooLong` shows such a string),
  and only the receive buffer keeps them out.
- **Algorithms.**  Holm's correction decides as the step-down procedure, the schedule is balanced for every shuffle, and
  the order statistics are ordered and independent of the order of the samples.

## Model

| member | source | states |
|---|---|---|
| Octets.Open | src/matf_vpn/crypto.py:118-129 | Ideal authenticated decryption: returns a plaintext exactly for ciphertexts that seal it under this key, nonce and header |
| Octets.SharedSecretCommutes | src/matf_vpn/key_agreement.py:31-39 | Both owners of two key pairs derive the same shared secret, and the derivation succeeds |
| Octets.SharedSecret | src/matf_vpn/key_agreement.py:31-39 | Raises exactly for keys that are not 32 bytes long and for the all-zero point |
| Octets.NumberOfBigEndian | src/matf_vpn/protocol.py:8-11 | A number that fits its field is read back from its big-endian bytes |
| Octets.BigEndianOfNumber | src/matf_vpn/protocol.py:8-11 | A literal field is rebuilt from the number read from it, which fits the field |
| Octets.BigEndianDigit | src/matf_vpn/protocol.py:8-11 | Byte i of a field is the digit of that weight, the most significant byte first |
| Protocol.HeaderInjective | src/matf_vpn/protocol.py:40-46 | Two equal 16-byte headers carry the same type, session, sequence number and size |
| Protocol.DecodeOfEncode | src/matf_vpn/protocol.py:32-64 | Encoding succeeds exactly for fields in range and payloads of at most 65491 bytes, fits a datagram, and decodes to the same packet |
| Protocol.WireLayout | src/matf_vpn/protocol.py:40-46 | Byte 0 is version 1, byte 1 the type 1 to 4, bytes 2-5 the session, 6-13 the sequence number, 14-15 the size, and then comes the payload |
| Protocol.EncodeOfDecode | src/matf_vpn/protocol.py:32-64 | An accepted byte string has fields in range, and re-encodes to itself if and only if it has at most 65507 bytes |
| Protocol.AcceptedButTooLong | src/matf_vpn/protocol.py:32-64 | A byte string of 65551 bytes that decoding accepts and encoding then refuses, so the condition above does fail |
| Protocol.DecodedParts | src/matf_vpn/protocol.py:48-64 | An accepted byte string is the header of the decoded packet followed by its payload, whatever its length |
| Protocol.DecodeInjective | src/matf_vpn/protocol.py:48-64 | No two byte strings decode to the same packet |
| Transport.Receive | src/matf_vpn/transport.py:30-32 | Whatever arrives, a received packet is one that could have been sent |
| Transport.ReceiveOfEncode | src/matf_vpn/transport.py:27-32 | What one end encodes and sends the other receives as it was |
| Bits.AndBits | src/matf_vpn/crypto.py:46-46 | `&` keeps exactly the bits set in both operands |
| Bits.OrBits | src/matf_vpn/crypto.py:60-64 | Bitwise or sets exactly the bits set in either operand |
| Bits.ShlBits | src/matf_vpn/crypto.py:57-57 | `<<` moves every bit up and brings in zeros |
| Bits.MaskBits | src/matf_vpn/crypto.py:58-58 | `(1 << n) - 1` has exactly the bits below n |
| Replay.NewReplayWindow | src/matf_vpn/crypto.py:30-35 | Raises exactly for sizes that are not positive; otherwise the new window stands for the empty set of marked numbers |
| Replay.ReplayWindow.IsReplay | src/matf_vpn/crypto.py:37-46 | The bit test answers true exactly for negative numbers, marked ones, and those a window or more below some marked one |
| Replay.ReplayWindow.MarkAuthenticated | src/matf_vpn/crypto.py:48-64 | Raises exactly for refused numbers and then changes nothing; otherwise the set gains this one number and the bitmap again represents it |
| Replay.WindowInvariant | src/matf_vpn/crypto.py:29-64 | After any history the bitmap is below 2^size, bit d is set iff highest - d was marked, and a number is refused iff negative, marked or at most highest - size |
| Replay.StateIsFunctionOfMarks | src/matf_vpn/crypto.py:29-64 | Two windows with the same marked set have the same highest number and the same bitmap |
| Replay.RefusedForever | src/matf_vpn/crypto.py:37-64 | A number refused once is refused for ever, whatever else is marked |
| Replay.NarrowSequenceAccepted | src/matf_vpn/crypto.py:48-64 | Distinct new numbers spread over less than a window are accepted in full in any order, and exactly they are added |
| Replay.OrderIndependent | src/matf_vpn/crypto.py:37-64 | Two arrangements of the same such numbers, on a fresh window, end with identical highest number and bitmap |
| Replay.Replayed | src/matf_vpn/crypto.py:29-64 | Any history of attempts drives the real window to the set computed from that history alone |
| Lru.HitTouches | src/matf_vpn/crypto.py:166-168 | A cache hit moves its key to the newest end and keeps the dictionary well formed |
| Lru.MissTouches | src/matf_vpn/crypto.py:182-185 | A miss stores its value, evicts the oldest key if the cache is over its size, and alters no other entry |
| Lru.CacheHoldsMostRecent | src/matf_vpn/multi_server.py:58-94 | For any history and size, a key is cached iff fewer than `size` other distinct keys were used since its last use; the order is that of last use |
| Lru.SinceIsTail | src/matf_vpn/multi_server.py:58-94 | The keys counted since a key's last use are exactly those in the history behind it |
| Lru.NothingEvicted | src/matf_vpn/multi_server.py:90-92 | With no more distinct keys than places, a key once used is never evicted |
| Lru.MonotoneMissesOnce | src/matf_vpn/crypto.py:163-185 | A non-decreasing history misses each of its keys exactly once, in order |
| Sequences.DistinctBySize | src/matf_vpn/multi_server.py:50-53 | A list has no repeats iff its set is as large as the list |
| Ciphers.NonceInjective | src/matf_vpn/crypto.py:204-205 | A nonce determines its session and sequence number |
| Ciphers.NonceIsInHeader | src/matf_vpn/crypto.py:204-205 | The nonce is bytes 2 to 13 of the packet on the wire |
| Ciphers.CreateCipher | src/matf_vpn/crypto.py:191-201 | Raises exactly for a negative rotation count, a secret under 32 bytes or a session id beyond 32 bits; otherwise the cipher is the one for this secret, session, role and rotation count |
| Ciphers.KeysAt | src/matf_vpn/crypto.py:74-100 | Every wire sequence number has a cipher, and one role's receive key is the other role's send key |
| Ciphers.DirectionsSeparate | src/matf_vpn/crypto.py:86-99 | The two directions share no key, in whatever epochs |
| Ciphers.KeyChangesWithEpoch | src/matf_vpn/crypto.py:158-181 | Two sequence numbers share a key iff they lie in one epoch |
| Ciphers.KeyLasts | src/matf_vpn/crypto.py:158-161 | With rotation on two sequence numbers share a key iff they have one quotient by `packets_per_key`; without it all do |
| Ciphers.KeyOctets | src/matf_vpn/crypto.py:86-99 | Octet by octet, a client-to-server key is the first half, a server-to-client key the second half, of the material derived from the secret, or from the epoch's secret derived from it, with the salts and contexts of the source |
| Ciphers.KeyDeterminesSpec | src/matf_vpn/crypto.py:74-100 | A key is derived for one secret, one session, one direction and one epoch only |
| Ciphers.KeyUseBounded | src/matf_vpn/crypto.py:158-161 | With rotation on, no key serves more than `packets_per_key` sequence numbers of a direction |
| Ciphers.EncryptSucceeds | src/matf_vpn/crypto.py:102-116 | Encryption succeeds exactly for header fields in range and payloads that leave room for the tag, and seals under the direction's key |
| Ciphers.OneSealing | src/matf_vpn/crypto.py:102-116 | The datagram of an encrypted packet holds octets sealed under exactly one key and nonce: those of its direction, epoch, session and number |
| Ciphers.SealingDeterminesPacket | src/matf_vpn/crypto.py:102-116 | One octet of a sealing determines the cipher and the packet behind the datagram that holds it |
| Ciphers.PeersInterop | src/matf_vpn/crypto.py:102-156 | One end seals p to q iff the other end opens q to p, for every sequence number and rotation count; an end rejects its own packets |
| Ciphers.AuthenticatedHeaderIsWireHeader | src/matf_vpn/crypto.py:102-116 | An encrypted packet fits a datagram, and the header sealed with it is the first 16 bytes of that datagram |
| Ciphers.DecryptChecksReceivedHeader | src/matf_vpn/crypto.py:118-129 | The header checked on decryption is byte for byte the one received |
| Ciphers.RotatingPacketCipher.CipherFor | src/matf_vpn/crypto.py:163-185 | The cached answer always equals a fresh derivation, errors included; each access is recorded as epoch sequence // packets_per_key, fails exactly for negative numbers and epochs beyond 64 bits, and keeps the cache coherent with the access history |
| Ciphers.RotatingPacketCipher.Encrypt | src/matf_vpn/crypto.py:152-153 | Through the cache as without it: the result depends on secret, session, role and packet only |
| Ciphers.RotatingPacketCipher.Decrypt | src/matf_vpn/crypto.py:155-156 | Through the cache as without it: the result depends on secret, session, role and packet only |
| Ciphers.CacheAfterHistory | src/matf_vpn/crypto.py:163-185 | After any accesses the cache holds the at most two most recently used epochs, and in-order use derives each epoch once |
| Ciphers.NewCipher | src/matf_vpn/crypto.py:191-201 | The object built, fixed or rotating, implements the cipher its parameters describe |
| Handshake.CreateClientHello | src/matf_vpn/handshake.py:99-121 | A hello always fits the wire, and the state remembers exactly the payload sent |
| Handshake.AcceptClientHello | src/matf_vpn/handshake.py:124-166 | An acceptance carries a response that fits the wire and a 32-byte secret; packets off the wire are refused with `ValueError` only |
| Handshake.RolesDeriveSameSecret | src/matf_vpn/handshake.py:216-262 | The client's and the server's order of the four exchanges give the same secret: the one derived from ephemeral-ephemeral, client ephemeral-server static, client static-server ephemeral and static-static, in that order, and the transcript |
| Handshake.SecretDeterminesExchanges | src/matf_vpn/handshake.py:225-262 | Two calls of one role with one secret had all four exchanges and the transcript in common, so each of them enters the secret |
| Handshake.SecretDeterminesKeys | src/matf_vpn/handshake.py:225-262 | Two handshakes of honest ends with one secret pair the same keys, ephemeral ones included, in each of the four exchanges |
| Handshake.HandshakeAgreement | src/matf_vpn/handshake.py:99-202 | Between configured peers, for all keys and randomness, create, accept and finish succeed, with the secret of the four exchanges between just these ephemeral and static keys on both sides |
| Handshake.HelloLayout | src/matf_vpn/handshake.py:99-121 | A hello is created iff the keys agree on a secret; it holds the ephemeral public key, the token, and the tag over context, role, session and both |
| Handshake.ResponseLayout | src/matf_vpn/handshake.py:141-156 | A response holds the ephemeral public key, the token, and the tag over context, role, session, the whole hello and both |
| Handshake.NegotiatedCiphersInterop | src/matf_vpn/handshake.py:57-62 | The two ciphers built from one secret open each other's packets in both directions and reject their own |
| Handshake.RolesUnambiguous | src/matf_vpn/handshake.py:108-111 | No client transcript is a server transcript |
| Handshake.ServerTranscriptInjective | src/matf_vpn/handshake.py:146-152 | A server transcript determines session, hello and body |
| Handshake.ClientTranscriptInjective | src/matf_vpn/handshake.py:134-137 | A client transcript determines session and body |
| Handshake.FinishedMeansAccepted | src/matf_vpn/handshake.py:169-202 | Under any forged, duplicated or reordered traffic, a handshake the client finishes was answered by an accept call on exactly its hello, with exactly this response and secret |
| Handshake.AcceptedMeansCreated | src/matf_vpn/handshake.py:124-139 | Under the same traffic, an accepted hello is one its client created, unmodified |
| Handshake.RunClientHandshake | src/matf_vpn/handshake.py:36-63 | Sends at most `attempts` copies of one hello, exactly that many if it times out; stops at the first arrival that completes the handshake, which came from the configured address, with the cipher for its secret |
| Handshake.RunServerHandshake | src/matf_vpn/handshake.py:66-96 | Answers exactly the first acceptable arrival among the first `attempts`, which came from the configured address, once; answers nothing and times out only if none of them is acceptable |
| Handshake.AnswerIsPeers | src/matf_vpn/handshake.py:47-56 | An arrival completes the client's handshake iff it is a packet from the configured address that finishes it with this secret |
| Handshake.ServedIsPeers | src/matf_vpn/handshake.py:75-88 | An arrival is answered by the server iff it is a packet from the configured address that is accepted with this response |
| Handshake.CompletedRunHasPeer | src/matf_vpn/handshake.py:36-96 | The arrival that completes a client's handshake has an accept call on its hello, whose server cipher is the mirror image; for whole runs of both loops see `Exchange.LoopsAgree` |
| Handshake.SecretDeterminesCall | src/matf_vpn/handshake.py:216-262 | Two accept calls with one secret had one hello, one response, one draw of randomness and one static secret |
| Exchange.NextKeeps | src/matf_vpn/handshake.py:36-96 | Every send and receive of either loop, on any arrival the network can make of what was sent so far, keeps both loops' invariants and their agreement |
| Exchange.LoopsAgree | src/matf_vpn/handshake.py:36-96 | In every joint run each end does what its loop does on what it heard; a client that returns a cipher meets a server that has already returned the mirror image, for the client's own hello; a server that sent a response or returned a cipher has accepted exactly the hello sent to it before, and both are those of that one accept call |
| Exchange.QuietNetworkAgrees | src/matf_vpn/handshake.py:36-96 | If the first hello and its response arrive, both loops return, with matching ciphers, after one datagram each |
| Endpoints.StepProper | src/matf_vpn/engine.py:57-81 | No pass changes the configuration |
| Endpoints.SendKeeps | src/matf_vpn/engine.py:86-99 | Sending numbers packets 0, 1, 2 and so on, DATA and KEEPALIVE alike, and a failed send changes nothing |
| Endpoints.ExhaustedCounterStops | src/matf_vpn/engine.py:86-99 | A send fails with `OverflowError` and no effect if and only if 2^64 packets were sent |
| Endpoints.SmallSendSucceeds | src/matf_vpn/engine.py:86-99 | Whatever leaves room for the tag is sent, until the counter is exhausted |
| Endpoints.ReceiveEffect | src/matf_vpn/engine.py:101-129 | A datagram that is foreign, malformed, replayed or badly tagged changes nothing, deadline included; an accepted one marks its number, restarts the deadline and delivers iff it is DATA |
| Endpoints.IgnoredDatagrams | src/matf_vpn/engine.py:101-121 | Changes nothing and counts nothing: any datagram from another address, malformed, of another session, a hello, or on an encrypted endpoint seen, 64 or more behind a number seen, or not opening |
| Endpoints.PlainReceive | src/matf_vpn/engine.py:113-129 | Without a cipher every well-formed DATA packet of the session is written, repeats included, and no window or deadline moves |
| Endpoints.PlainSend | src/matf_vpn/engine.py:86-99 | Without a cipher a packet goes out as it is |
| Endpoints.PassEffect | src/matf_vpn/engine.py:57-81 | All a pass does, whatever is readable: the TUN packet goes first and its failure stops the pass; a packet of the peer is then taken also when TUN was readable; then a keepalive if due and the write was not short, and the deadline; with the count returned and the exception raised in every case |
| Endpoints.RunStops | src/matf_vpn/engine.py:53-55 | A run is its first k passes and, unless one of them raised, the rest from there |
| Endpoints.RunOfOne | src/matf_vpn/engine.py:53-55 | A run of one pass is that pass |
| Engine.NewTunnelEngine | src/matf_vpn/engine.py:19-51 | Raises exactly for session ids beyond 32 bits and bad liveness settings; otherwise the new object is the fresh endpoint: counter 0, empty window, both timers from one clock reading |
| Engine.TunnelEngine.SendPacket | src/matf_vpn/engine.py:86-99 | On its own fields, refines the sending step, for whose sequence numbers and failures see `Endpoints.SendKeeps` |
| Engine.TunnelEngine.SendTunPacket | src/matf_vpn/engine.py:83-84 | Refines sending what the TUN device supplied as DATA |
| Engine.TunnelEngine.ReceiveUdpPacket | src/matf_vpn/engine.py:101-129 | Refines the receiving step, with the bitmap window and the caching cipher; marking never raises here |
| Engine.TunnelEngine.RunOnce | src/matf_vpn/engine.py:57-81 | Refines one whole step: order of the stages, count of forwarded packets, and which exception leaves which state behind |
| Engine.TunnelEngine.Run | src/matf_vpn/engine.py:53-55 | Refines steps up to the first exception |
| Engine.TunnelEngine.GetSelectTimeout | src/matf_vpn/engine.py:131-141 | Without keepalives the loop sleeps as asked; with them to the nearest of the request, the next keepalive and the deadline, the last two cut off at 0, so a negative time results only if one was asked for |
| Liveness.KeepaliveRate | src/matf_vpn/engine.py:74-81 | Under any traffic, keepalives sent by time T number at most floor((T - start) / interval) |
| Liveness.SilenceTimesOut | src/matf_vpn/engine.py:57-141 | With exact wake-ups and no traffic, the timeout is raised on pass ceil(L/I), none earlier, after floor(L/I) keepalives, if and only if floor(L/I) is at most 2^64; otherwise the counter overflows first |
| Liveness.FloorAndCeiling | src/matf_vpn/engine.py:131-141 | The counts used there are the last whole number of intervals within the deadline and the first to reach it |
| Network.AcceptedWasSent | src/matf_vpn/engine.py:101-129 | Whatever the network does, an arrival that authenticates is the packet the peer logged under that very number |
| Network.NextKeeps | src/matf_vpn/engine.py:57-129 | Every pass of either end, on any allowed delivery, keeps the joint invariant of both ends |
| Network.TunnelIsAuthentic | src/matf_vpn/engine.py:57-129 | Over any run, each payload one end writes to TUN is the one the other end read for that sequence number, and no number is delivered twice |
| Network.PositionsDistinct | src/matf_vpn/engine.py:83-99 | Distinct DATA packets come from distinct TUN reads, so deliveries inject into reads |
| Network.UnmodifiedArrival | src/matf_vpn/engine.py:101-129 | A datagram of the peer that arrives intact is accepted exactly when its number is not refused, and delivers the original payload iff it is DATA |
| Network.IntactIsAccepted | src/matf_vpn/engine.py:101-125 | An intact datagram of the peer whose number is not refused by a 64-number window is authenticated as the packet logged under that number |
| Network.PassServesBoth | src/matf_vpn/engine.py:68-81 | A pass that finds TUN and UDP readable sends the one payload and writes the other, and returns 2 unless the deadline has passed |
| Network.PayloadArrives | src/matf_vpn/engine.py:83-129 | In every reachable state of a live sender, a payload that fits is sent, and when its datagram arrives it is delivered unchanged: no window can refuse the newest packet |
| Network.NoKeyNonceReuse | src/matf_vpn/engine.py:86-99 | Every datagram of either end holds a sealing; no key and nonce have octets in two datagrams of one end, and no key in datagrams of both |
| Network.RunNeverReusesNonce | src/matf_vpn/engine.py:57-129 | The same over any run; numbers are 0 to n - 1 with n at most 2^64, and with rotation on at most `packets_per_key` datagrams of an end hold octets sealed under one key |
| Network.CompletedHandshakeOpensTunnel | src/matf_vpn/handshake.py:36-96 | A client handshake completed under any traffic yields, with its matching accept call, a starting state of the tunnel theorem |
| SessionTables.AddKeepsBijection | src/matf_vpn/multi_client.py:37-44 | Adding succeeds exactly when key and address are free, then enters just this session, else changes nothing; the bijection is kept either way |
| SessionTables.RemoveKeepsBijection | src/matf_vpn/multi_client.py:52-54 | Removing succeeds exactly for a present key, then takes out just this session and its route, else changes nothing; the bijection is kept either way |
| SessionTables.ReplaceKeepsBijection | src/matf_vpn/multi_client.py:46-50 | Replacing keeps the bijection and every other client's session; it raises if and only if the new key belongs to another address, and then this address has no session left |
| SessionTables.SameSize | src/matf_vpn/multi_client.py:34-35 | There are as many sessions as routes |
| SessionTables.Ipv4Fields | src/matf_vpn/multi_client.py:128-143 | The source is bytes 12-15 and the destination bytes 16-19 of a packet of version 4 with a whole header of at least 20 bytes; from any other, neither is read |
| SessionTables.Ipv4Valid | src/matf_vpn/multi_client.py:138-143 | Exactly the strings of 20 or more bytes that begin with 0x45 to 0x4F and hold the header length so given pass for IPv4 |
| SessionTables.RoutedByDestination | src/matf_vpn/multi_client.py:73-95 | A TUN packet is sealed in the session that serves its destination address, or dropped if none does, whatever its source |
| SessionTables.DeliveredBySource | src/matf_vpn/multi_client.py:104-125 | An authentic packet is written iff it is unseen DATA and its source address is that of the session, whatever its destination |
| SessionTables.IgnoredPackets | src/matf_vpn/multi_client.py:104-119 | Changes nothing: any packet without a session at its address and id, not DATA, seen, 64 or more behind, not opening, or not from its client's address |
| SessionTables.HandleTunEffect | src/matf_vpn/multi_client.py:73-95 | A TUN packet goes, encrypted, to the one session with its destination and advances that counter alone; otherwise nothing changes |
| SessionTables.HandleUdpEffect | src/matf_vpn/multi_client.py:104-125 | A packet is delivered exactly when the session at its address and id authenticates it, it is unseen DATA, and its source is that session's address; every other packet leaves all windows, counters and tables as they were |
| MultiClient.ClientSession.constructor | src/matf_vpn/multi_client.py:20-27 | A new session has counter 0 and an empty window of its own |
| MultiClient.MultiClientServerEngine.AddSession | src/matf_vpn/multi_client.py:37-44 | On the two dictionaries of session objects, refines adding; sessions and routes hold the same objects |
| MultiClient.MultiClientServerEngine.RemoveSession | src/matf_vpn/multi_client.py:52-54 | Refines removing, raising path included |
| MultiClient.MultiClientServerEngine.ReplaceSession | src/matf_vpn/multi_client.py:46-50 | Refines replacing, raising path included |
| MultiClient.MultiClientServerEngine.HandleTunPacket | src/matf_vpn/multi_client.py:73-95 | Refines passing a TUN packet: one session object changes, all others keep their state |
| MultiClient.MultiClientServerEngine.HandleUdpPacket | src/matf_vpn/multi_client.py:104-125 | Refines passing a UDP packet: at most one window changes |
| MultiClient.MultiClientServerEngine.Deliver | src/matf_vpn/multi_client.py:121-125 | For an unseen number marking never raises, and the packet is logged with its session; a short write raises after the mark |
| Servers.Recognise | src/matf_vpn/multi_server.py:68-76 | The client recognised is the first registered one whose key verifies the hello; none is recognised only if the hello verifies under no registered key |
| Servers.FingerprintInjective | src/matf_vpn/multi_server.py:58-58 | A fingerprint belongs to one hello |
| Servers.StepKeeps | src/matf_vpn/multi_server.py:115-147 | Every pass, raising ones included, keeps the joint invariant of tables, cache and logs |
| Servers.PassRaisesFirst | src/matf_vpn/multi_server.py:123-124 | A pass that raises on the TUN packet reads no datagram and changes nothing |
| Servers.PassServesPacket | src/matf_vpn/multi_server.py:123-147 | Whether or not TUN is readable too, a packet its session admits is written, marked and counted, next to the TUN packet sealed |
| Servers.PassServesHello | src/matf_vpn/multi_server.py:123-147 | Whether or not TUN is readable too, an accepted hello is answered to where it came from, after the TUN packet, and recorded |
| Servers.PassIgnores | src/matf_vpn/multi_server.py:125-146 | A malformed datagram, or a hello no registered key verifies, leaves the pass as if nothing had arrived |
| Servers.RunStops | src/matf_vpn/multi_server.py:111-113 | A run is its first k passes and, unless one of them raised, the rest from there |
| Servers.RunOfOne | src/matf_vpn/multi_server.py:111-113 | A run of one pass is that pass |
| Servers.SessionsAreVouched | src/matf_vpn/multi_server.py:111-147 | Over every run, tables are in bijection, each session serves the address of the registered client whose key verified its hello, and sessions never outnumber clients |
| Servers.ServerDeliveries | src/matf_vpn/multi_client.py:104-143 | Over every run, each TUN write comes from a session opened by a hello that verified under the key of a registered client; its packet opens under that session's keys and is what the client's end of it seals; it is a well-formed IPv4 packet from that client's address; no session delivers a number twice |
| Servers.ServerTransmissions | src/matf_vpn/multi_client.py:81-94 | Over every run, each datagram is the response of an opened session or the encryption, under a session's cipher, of a payload addressed to its client; each payload sent was read from TUN, by a read of its own, in that order; each session's packets are numbered 0, 1, 2 and so on within 64 bits, up to its counter |
| Servers.RunReads | src/matf_vpn/multi_server.py:122-124 | From any state on, the packets a run seals come from distinct TUN reads of that run, in order |
| ServerKeys.SessionSealsOnce | src/matf_vpn/multi_client.py:81-94 | Over every run, no key and nonce have octets in two datagrams of one session |
| ServerKeys.SessionKeyUseBounded | src/matf_vpn/multi_client.py:81-94 | Over every run, with rotation on, at most `packets_per_key` datagrams of a session hold octets sealed under one key |
| ServerKeys.SessionsShareNoKey | src/matf_vpn/multi_server.py:68-88 | Sessions opened with different randomness share no key, in whatever epochs and for whatever clients |
| ServerKeys.ServerNeverReusesNonce | src/matf_vpn/multi_server.py:111-147 | Over every run with fresh randomness, no key and nonce have octets in two datagrams of the whole server, reconnecting clients and hellos answered anew after eviction included |
| Servers.HelloCacheIsLru | src/matf_vpn/multi_server.py:58-94 | Over every run, exactly the hellos answered with fewer than 1024 distinct others since are cached, in order of last use |
| Servers.RepeatIsNewIffEvicted | src/matf_vpn/multi_server.py:59-67 | A hello answered before counts as new again if and only if at least 1024 other distinct hellos were answered since |
| Servers.HelloAnsweredOnce | src/matf_vpn/multi_server.py:58-94 | With at most 1024 distinct hellos answered, only the first answer to each is new, and all its responses are identical |
| Servers.RunAnswersHelloOnce | src/matf_vpn/multi_server.py:111-147 | The same for two equal hellos anywhere in a run, so each replaces a session at most once |
| Servers.RepeatChangesNothing | src/matf_vpn/multi_server.py:130-134 | A repeat of a cached hello sends the stored response and changes no session, route, counter, window or TUN log |
| Servers.RepeatedHello | src/matf_vpn/multi_server.py:115-147 | A hello answered once and sent again, from any address, gets the identical response, and sessions, routes, counters, windows and TUN log stay as the first answer left them |
| MultiServer.CheckIdentities | src/matf_vpn/multi_server.py:48-53 | Raises exactly when two clients share a name or a tunnel address |
| MultiServer.NewClientRegistry | src/matf_vpn/multi_server.py:38-53 | Raises exactly when two clients share a name or a tunnel address; otherwise the new registry has answered nothing |
| MultiServer.ClientRegistry.FindIdentity | src/matf_vpn/multi_server.py:68-76 | The loop finds the first registered client whose key verifies the hello |
| MultiServer.ClientRegistry.Accept | src/matf_vpn/multi_server.py:55-94 | On the ordered dictionary, refines the accept step; a new acceptance brings a fresh session object, a cached one is marked not new |
| MultiServer.MultiClientServer.HandleDatagram | src/matf_vpn/multi_server.py:125-146 | Refines the UDP half of a pass: hellos answered before sessions change, everything else to the data plane |
| MultiServer.MultiClientServer.RunOnce | src/matf_vpn/multi_server.py:115-147 | Refines one whole step on the server's objects, exceptions and forwarded count included |
| MultiServer.MultiClientServer.Run | src/matf_vpn/multi_server.py:111-113 | Refines steps up to the first exception, so the theorems over runs hold of the objects |
| Service.NextKeeps | src/matf_vpn/multi_server.py:115-147 | Every attempt and pass of a registered client and every pass of the server, on anything the network can deliver, keeps their joint invariant |
| Service.ConnectedMeansOpened | src/matf_vpn/handshake.py:36-63 | A client whose handshake completes, whatever the network did, has the mirror image of the cipher of a session the server opened for it, on its own hello |
| Service.UpwardsAuthentic | src/matf_vpn/multi_client.py:104-125 | Over every run, each TUN write of the server for a session of that client is the payload the client's TUN device supplied for that number, in a session the client joined, and no session writes a number twice |
| Service.UpwardsOnce | src/matf_vpn/multi_client.py:104-125 | With fresh randomness on the server, any two TUN writes for that client are of one session, have different numbers and come from distinct TUN reads of the client |
| Service.DownwardsAuthentic | src/matf_vpn/engine.py:101-129 | Over every run, each TUN write of the client is a payload the server read from its TUN device, sealed in a session the client joined and addressed to that client; distinct writes have distinct numbers and come from distinct reads |
| Service.OnePeer | src/matf_vpn/multi_server.py:83-88 | With fresh randomness on the server there is only one session that the client joined |
| Service.ServerRuns | src/matf_vpn/multi_server.py:111-113 | The server's part of such a run is a run of the server, so the theorems about its runs hold here |
| Service.QuietNetworkConnects | src/matf_vpn/multi_server.py:115-147 | If a registered client's first hello and the response arrive, the client is connected, its session is in the server's table, and both go on |
| Progress.UpPayloadServed | src/matf_vpn/multi_client.py:104-125 | While the session is live, a payload from the client's address that fits is sealed by the pass that reads it, and its intact arrival is written by the server unchanged: no window can refuse it |
| Progress.DownPayloadServed | src/matf_vpn/multi_client.py:73-95 | The same for a payload the server reads for the client, when the server's randomness is fresh |
| Progress.QuietNetworkServesUp | src/matf_vpn/multi_server.py:115-147 | There is a run from the first hello to the first packet the server writes for the client |
| Progress.QuietNetworkServesDown | src/matf_vpn/multi_server.py:115-147 | There is a run from the first hello to the first packet the client writes from the server |
| Progress.KeepalivesDoNotKeepAlive | src/matf_vpn/multi_client.py:104-107 | Over any run and whatever the network brings, a client with liveness on to which the server passed no packet does not survive a pass at its deadline, and raises `TimeoutError` if that pass reads nothing and the counter lasts |
| Collisions.CollisionEndsRun | src/matf_vpn/multi_client.py:37-50 | Whenever two registered clients send hellos with one session id from one address, the first gets its session and the second ends the server's run with `ValueError` |
| Collisions.HellosDiffer | src/matf_vpn/multi_server.py:58-59 | Hellos of different registered clients are cached under different fingerprints |
| Holm.StepDown | src/matf_vpn/final_analysis.py:258-262 | In place along any sorted index order, each index gets the largest corrected value up to its rank |
| Holm.HolmAdjust | src/matf_vpn/final_analysis.py:254-263 | The returned list holds, at each original index, the adjusted value that the lemmas below characterise |
| Holm.HolmDecides | src/matf_vpn/final_analysis.py:254-263 | For levels up to 1, adjusted[i] is below alpha iff Holm's step-down procedure rejects i, by ranks and also without ranks, so ties are irrelevant |
| Holm.HolmBounds | src/matf_vpn/final_analysis.py:259-262 | An adjusted value is at least p and at most 1 and n * p |
| Holm.HolmKeepsOrder | src/matf_vpn/final_analysis.py:254-263 | Order is kept, and equal p-values get equal results however they were sorted |
| Holm.HolmCommutes | src/matf_vpn/final_analysis.py:254-263 | Rearranging the input rearranges the result alike |
| Schedule.CheckParameters | src/matf_vpn/experiment.py:35-43 | Raises exactly for fewer than two modes, repeated or blank modes, and counts that are not positive |
| Schedule.FindOther | src/matf_vpn/experiment.py:53-55 | The search returns the first later place with another mode, and comes back empty only if there is none |
| Schedule.Repair | src/matf_vpn/experiment.py:52-56 | In place; with distinct modes the search always succeeds, and only a repeated first mode is exchanged, with its neighbour |
| Schedule.CreateBalancedSchedule | src/matf_vpn/experiment.py:29-68 | Raises exactly for fewer than two, repeated or blank modes and counts that are not positive; otherwise the schedule is the plan that the lemmas below characterise, for whatever the shuffles returned |
| Schedule.RoundIsPermutation | src/matf_vpn/experiment.py:50-56 | Every round runs every mode once and does not begin with the mode before it |
| Schedule.OrderIsShuffle | src/matf_vpn/experiment.py:50-56 | A round runs as it was shuffled, except that its first two modes change places when it would begin with the mode before it |
| Schedule.ScheduleIsBalanced | src/matf_vpn/experiment.py:45-68 | rounds * modes blocks numbered from 1, no two neighbours alike even across rounds, and rounds * repetitions for every mode |
| Schedule.RoundsArePermutations | src/matf_vpn/experiment.py:49-66 | Round r fills its own stretch of the schedule with a permutation of the modes |
| Percentiles.PercentileMonotone | src/matf_vpn/benchmark.py:84-93 | On sorted values percentiles grow with the fraction and stay between the extremes |
| Percentiles.HalfIsMedian | src/matf_vpn/benchmark.py:84-93 | The percentile at one half is the median |
| Percentiles.SummaryInOrder | src/matf_vpn/benchmark.py:30-49 | Every sample but the empty one is summarised, with minimum <= median <= p95 <= maximum, the extremes attained and the mean between them |
| Percentiles.SummaryValues | src/matf_vpn/benchmark.py:30-49 | Every field read off the samples in ascending order: extremes, the mean times the count as the sum in any order, the middle value or the mean of the middle two, and the 95th percentile on the line between the values around position 0.95 * (n - 1) |
| Percentiles.PercentileOfTwentieths | src/matf_vpn/benchmark.py:84-93 | Of 20k + 1 samples the 95th percentile is the one at place 19k |
| Percentiles.SummaryIgnoresOrder | src/matf_vpn/benchmark.py:30-49 | The summary does not depend on the order of the samples |

## Left out

- MultiServer.ClientRegistry.Accept: one draw of randomness stands for that of the attempt that succeeds.
- Schedule.CreateBalancedSchedule: the seeded generator is replaced by arbitrary shuffles, one permutation for each round.
- Percentiles.PercentileMonotone: only fractions from 0 to 1; the program uses 0.95.
- Percentiles.SummaryInOrder: standard deviation and confidence limits of the summary are not represented.
- Handshake.RunClientHandshake: the handshake loops return what determines the cipher; `Ciphers.NewCipher` makes the object, as for the server's sessions, which hold that value because the cache inside the object never shows.
- Service.NextKeeps: the client knows the server's public key and uses its rotation count, and makes one handshake; the network holds the keys of all other clients.
- Network.TunnelIsAuthentic: encrypted sessions only; without a cipher the program promises no authenticity.
- Constructors of Dafny classes cannot raise: those of `ReplayWindow`, `TunnelEngine` and `ClientRegistry` have preconditions, and the methods `New...` beside them raise as the original does; `RotatingPacketCipher` is built from what `Ciphers.CreateCipher` let through.
- The serial numbers of sessions and the logs of TUN reads, TUN writes and datagrams are additions of the model.
- `MultiClientServerEngine.run_once` (src/matf_vpn/multi_client.py:56-68): the server's pass without the hello branch.
- Sockets, `select` and descriptors, the TUN device, `ip` commands, log records, key files, configuration and command lines, the user interface.
- The reconnecting loop of src/matf_vpn/operations.py: a failed session starts a new one.
- The other benchmark and analysis code: statistics over floats, plots, reports, subprocesses.
- Clamping of X25519 scalars, hash collisions, secrecy, timing channels, floating-point rounding and probability.
