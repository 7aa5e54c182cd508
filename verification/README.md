# Verification model of Aevora

A Dafny model of the parts of the VPN system whose correctness is hardest to see, with proofs of what
they promise. `dafny verify dfyconfig.toml` checks everything.

| files | what they model |
|---|---|
| `Words`, `Limbs`, `FieldArithmetic`, `ByteStrings`, `Curve25519`, `KeyPair`, `Rfc7748` | the C implementation of X25519 on 16 signed 64-bit limbs, every store and intermediate range-checked, against section 5 of RFC 7748 over integers mod p |
| `KeyCodec` | the constant-time base64 and hexadecimal key codecs in bit-vector arithmetic, against RFC 4648 |
| `StoreTables`, `LeaseProtocol`, `LeaseRuns`, `Store`, `Allocation`, `Selection` | the control plane's lease protocol: a state machine whose steps are single SQL statements on committed tables, each connect with its snapshot, its uncommitted changes and its row locks |
| `LeaseSafety`, `LeaseCapacity`, `CapacityReached`, `LeaseDevices`, `LeaseKeys`, `KeyRevocation`, `LeaseRaces`, `AtomicConnects`, `GatewayLife` | what its interleavings keep, and the exact conditions for what they do not: addresses, capacity, one lease for a device, revoked keys; which gateways can be chosen |
| `Reconcile`, `WireGuard`, `PeerAddresses` | the agent that brings the WireGuard interface to the desired peers, and when the control plane's listing lets it |
| `ConfigText`, `WgQuick`, `WgQuickReader`, `WgQuickWriter`, `WgQuickLines`, `WgQuickItems`, `WgQuickRoundTrip`, `WgQuickInverse`, `WgQuickLayout`, `WgQuickSections`, `WgQuickMeaning` | the wg-quick reader, a declarative meaning of its texts, the writer, reading as the inverse of writing, and what in a text does and does not matter |
| `Options` | a value that may be missing |
| `RateLimit`, `Adapter`, `Client`, `AddressRange` | the evicting rate limiter, the tunnel adapter, the client's connection state, prefix masks |

How the model is set up:

- Methods take the form of the code they model: limb arrays and byte buffers are overwritten in place, the
  stores, the interface, the adapter and the client are classes. Each is proved against a function or a
  property of its inputs; statements over whole runs are lemmas about those functions.
- In `LeaseProtocol` a statement sees the tables as committed at that moment and its own transaction's
  changes. A statement that would wait for a row lock is not enabled until the lock is gone; one over many
  rows, the release of a device's leases in step 1b included, may miss rows that its snapshot did not have.
  Any open transaction may roll back.
- The network, clocks, randomness, DNS, operating-system calls and other processes are parameters: a method
  is given what they answer, and the contracts hold for all answers.
- Keys, address ranges, DNS servers and endpoints are abstract in `WgQuick`, with formats of which only this
  is used: reading undoes printing, and printed text is not empty and has no comma, `#` or white space.
  Lower-casing is a parameter that is the usual one on ASCII text and keeps equals signs.
- `>>` on a negative number is floor division.

Where code and comments differ, the model follows the code:

- `connections.go` says that releasing the old lease means a device never holds two peers. The device row is
  not locked. Exactly: a commit keeps the promise if and only if it releases all that its device holds by
  then (`LeaseDevices.CommitKeepsOneExactly`, `OneLeaseExactly` for whole runs). That is so when step 1b never
  runs while another connect of the same device is past it and so misses none of the device's leases
  (`LeaseDevices.OneActiveLeasePerDevice`), whatever other devices and the background do; `LeaseRaces` has
  two runs in which it fails.
- The capacity check reads the count before the gateway row is locked, so overlapping connects can exceed
  the capacity: `LeaseCapacity.CapacityOvershoot` gives the bound and `CapacityReached.ReachedExactly` shows
  that it is reached for every capacity and every number of open connects.
- Revoking a device does not stop its open connects. `KeyRevocation.RevocationIsFinalExactly` says exactly
  when the device's key can be served after the last statement of the revocation.
- A gateway that registers again with another IPv4 subnet and the same IPv6 subnet can have two peers with one
  IPv6 address (`PeerAddresses.ChangedSubnetCollides`); the unique index is on IPv4 alone.
  `PeerAddresses.ConvergesExactly` says that this, and
  nothing else but a failing command, keeps the agent from converging.
- The comment on `ExpireLeasesOnUnhealthyGateways` lists unhealthy, draining and disabled gateways; the
  statement also expires the leases of pending ones, so re-registering a gateway ends its leases at the next
  run of the reaper.
- `client.rs` assigns some states without asking `can_transition_to`; `Client.CallsFollowTable` says exactly
  which.

## Model

| member | source | states |
|---|---|---|
| Curve25519.SharedSecret | client/apple/Packages/WireGuardKit/Sources/WireGuardKitC/x25519.c:120-164 | for every scalar and u-coordinate the output is the X25519 function of section 5 of RFC 7748: clamping, masking, the ladder with deferred swaps, division by z^(p-2) |
| Curve25519.LadderLoop | client/apple/Packages/WireGuardKit/Sources/WireGuardKitC/x25519.c:136-160 | after the 255 rounds the four elements are, mod p, the state of the RFC's ladder with its last pending swap undone; every element stays within the multiplication bound |
| Curve25519.SwapRoundSwap | client/apple/Packages/WireGuardKit/Sources/WireGuardKitC/x25519.c:137-159 | swapping by a bit before and after a round equals the RFC's deferred swap by the difference of neighbouring bits |
| Curve25519.DeferredSwap | client/apple/Packages/WireGuardKit/Sources/WireGuardKitC/x25519.c:138-159 | two swaps by two bits are one swap by their difference |
| Curve25519.Round | client/apple/Packages/WireGuardKit/Sources/WireGuardKitC/x25519.c:140-157 | one round takes the residues of the four coordinates through the RFC's ladder formulas and keeps the limb bounds |
| Curve25519.Invert | client/apple/Packages/WireGuardKit/Sources/WireGuardKitC/x25519.c:106-118 | computes x^(p-2) mod p for every x within the bound, also when output and input are the same array |
| Curve25519.FinalExponent | client/apple/Packages/WireGuardKit/Sources/WireGuardKitC/x25519.c:112-116 | squaring 254 times and multiplying in every round but 2 and 4 has exponent exactly p - 2 |
| Curve25519.BitOfBytes | client/apple/Packages/WireGuardKit/Sources/WireGuardKitC/x25519.c:137-137 | the bit picked from byte i / 8 by i % 8 is bit i of the little-endian scalar |
| Rfc7748.StepDoublesAndAdds | client/apple/Packages/WireGuardKit/Sources/WireGuardKitC/x25519.c:140-157 | the ladder formulas are, mod p, the doubling and the differential addition of the curve v^2 = u^3 + 486662 u^2 + u, which fixes the constant 121665 |
| KeyPair.DerivePublicKey | client/apple/Packages/WireGuardKit/Sources/WireGuardKitC/x25519.c:166-171 | the public key is X25519 of the private key and the base point |
| KeyPair.BasePointIsNine | client/apple/Packages/WireGuardKit/Sources/WireGuardKitC/x25519.c:168-168 | the base point bytes decode to u = 9 (section 4.1 of RFC 7748) |
| KeyPair.GeneratePrivateKey | client/apple/Packages/WireGuardKit/Sources/WireGuardKitC/x25519.c:173-178 | a generated key is the clamped random bytes, is a fixed point of clamping, and acts in X25519 as the random bytes do |
| KeyPair.ClampedScalar | client/apple/Packages/WireGuardKit/Sources/WireGuardKitC/x25519.c:130-131 | a clamped scalar is a multiple of 8 from 2^254 up to 2^255 |
| KeyPair.ClampTwice | client/apple/Packages/WireGuardKit/Sources/WireGuardKitC/x25519.c:130-131 | clamping is idempotent |
| KeyPair.UnpackAfterPack | client/apple/Packages/WireGuardKit/Sources/WireGuardKitC/x25519.c:39-72 | reading a written coordinate back gives the value mod p, for every integer value |
| FieldArithmetic.MultMod | client/apple/Packages/WireGuardKit/Sources/WireGuardKitC/x25519.c:90-104 | for limbs within twice the tight bound no int64 intermediate overflows, the result is congruent to the product, limb 0 is in [-38, 65573] and the others are 16-bit digits |
| FieldArithmetic.TwoPasses | client/apple/Packages/WireGuardKit/Sources/WireGuardKitC/x25519.c:98-103 | two carry passes bring the folded columns into that range and keep the residue |
| FieldArithmetic.Columns | client/apple/Packages/WireGuardKit/Sources/WireGuardKitC/x25519.c:92-97 | the 31 column sums, all within int64, have the value of the product |
| FieldArithmetic.FoldColumns | client/apple/Packages/WireGuardKit/Sources/WireGuardKitC/x25519.c:98-99 | folding by 38 changes the value by an exact multiple of 2p |
| FieldArithmetic.Carry | client/apple/Packages/WireGuardKit/Sources/WireGuardKitC/x25519.c:17-25 | the in-place pass computes the carry specification on every limb, without overflow for limbs up to 2^62 |
| Limbs.CarriedValue | client/apple/Packages/WireGuardKit/Sources/WireGuardKitC/x25519.c:17-25 | a carry pass changes the value by exactly 2p times the carry out of limb 15 |
| Limbs.FirstPass | client/apple/Packages/WireGuardKit/Sources/WireGuardKitC/x25519.c:17-25 | bounds after the first pass |
| Limbs.SecondPass | client/apple/Packages/WireGuardKit/Sources/WireGuardKitC/x25519.c:17-25 | bounds after the second pass |
| Limbs.ThirdPass | client/apple/Packages/WireGuardKit/Sources/WireGuardKitC/x25519.c:17-25 | after the third pass all limbs are 16-bit digits |
| FieldArithmetic.ConditionalSwapInPlace | client/apple/Packages/WireGuardKit/Sources/WireGuardKitC/x25519.c:27-37 | the masked exclusive-or exchanges the arrays when the bit is 1 and leaves them when it is 0, for all 64-bit limbs |
| FieldArithmetic.MaskedSwap | client/apple/Packages/WireGuardKit/Sources/WireGuardKitC/x25519.c:31-35 | adding the masked difference to either word gives the other word or itself |
| FieldArithmetic.Add | client/apple/Packages/WireGuardKit/Sources/WireGuardKitC/x25519.c:74-80 | limb-wise sum: its value is the sum and its limbs are within the multiplication bound, also when arrays alias |
| FieldArithmetic.Subtract | client/apple/Packages/WireGuardKit/Sources/WireGuardKitC/x25519.c:82-88 | limb-wise difference: its value is the difference and its limbs are within the multiplication bound |
| ByteStrings.Unpack | client/apple/Packages/WireGuardKit/Sources/WireGuardKitC/x25519.c:65-72 | sixteen digits whose value is the RFC's decoding, with the top bit masked |
| ByteStrings.Pack | client/apple/Packages/WireGuardKit/Sources/WireGuardKitC/x25519.c:39-63 | writes the little-endian bytes of the value mod p, strictly below p, for limbs of magnitude up to 2^62 |
| ByteStrings.FinalReduction | client/apple/Packages/WireGuardKit/Sources/WireGuardKitC/x25519.c:48-58 | the two conditional subtractions leave the residue below p |
| ByteStrings.SubtractPrime | client/apple/Packages/WireGuardKit/Sources/WireGuardKitC/x25519.c:49-56 | the borrow loop computes t - p and reports exactly whether t < p |
| ByteStrings.ThreePasses | client/apple/Packages/WireGuardKit/Sources/WireGuardKitC/x25519.c:45-47 | three passes over limbs up to 2^62 give digits congruent to the input |
| KeyCodec.KeyToBase64 | client/apple/Packages/WireGuardKit/Sources/WireGuardKitC/key.c:24-33 | the 44 characters are the base64 text (section 4 of RFC 4648) and a terminator follows |
| KeyCodec.KeyFromBase64 | client/apple/Packages/WireGuardKit/Sources/WireGuardKitC/key.c:50-72 | accepts exactly the canonical texts of 32-byte keys (section 3.5 of RFC 4648), and then re-encoding the key gives the text |
| KeyCodec.EncodeLetterIsTable | client/apple/Packages/WireGuardKit/Sources/WireGuardKitC/key.c:15-20 | the arithmetic on masks equals the alphabet table for every 6-bit value |
| KeyCodec.DecodeLetterIsInverse | client/apple/Packages/WireGuardKit/Sources/WireGuardKitC/key.c:39-46 | the mask sums invert the table, and give -1 for every other char, signed or not |
| KeyCodec.DecodeGroupMeaning | client/apple/Packages/WireGuardKit/Sources/WireGuardKitC/key.c:35-48 | a group is non-negative exactly when its four characters are in the alphabet, and then its bytes encode to them |
| KeyCodec.LastGroup | client/apple/Packages/WireGuardKit/Sources/WireGuardKitC/key.c:66-71 | the group of three characters is accepted exactly when its unused bits are clear |
| KeyCodec.Base64Injective | client/apple/Packages/WireGuardKit/Sources/WireGuardKitC/key.c:24-33 | different keys have different texts |
| KeyCodec.Base64Alphabet | client/apple/Packages/WireGuardKit/Sources/WireGuardKitC/key.c:24-33 | a key's text has 43 alphabet characters and one padding character |
| KeyCodec.KeyToHex | client/apple/Packages/WireGuardKit/Sources/WireGuardKitC/key.c:74-83 | the 64 characters are the lower-case hexadecimal text and a terminator follows |
| KeyCodec.KeyFromHex | client/apple/Packages/WireGuardKit/Sources/WireGuardKitC/key.c:85-114 | accepts exactly 64 hexadecimal digits of either case; re-encoding gives the text in lower case |
| KeyCodec.HexInjective | client/apple/Packages/WireGuardKit/Sources/WireGuardKitC/key.c:74-83 | different keys have different texts |
| KeyCodec.RoundTrips | client/apple/Packages/WireGuardKit/Sources/WireGuardKitC/key.c:24-114 | decoding undoes encoding in both formats, for every key |
| KeyCodec.KeyEq | client/apple/Packages/WireGuardKit/Sources/WireGuardKitC/key.c:116-124 | true exactly for equal keys |
| LeaseSafety.NoInterleavingAllocatesTwice | control-plane/internal/store/connections.go:36-170 | in every interleaving of connects with release, renewal, expiry, revocation and gateway changes, active leases of a gateway have distinct IPv4 addresses and no enabled insert conflicts with the partial unique index |
| LeaseSafety.InsertNeverRejected | control-plane/internal/store/migrations/0001_init.up.sql:83-85 | an address outside the set read under the gateway lock never conflicts with the index |
| LeaseSafety.StepKeepsInv | control-plane/internal/store/connections.go:36-311 | every enabled statement of every operation keeps the lock and snapshot invariant |
| LeaseSafety.BackgroundOnlyDeactivates | control-plane/internal/store/gateways.go:36-158 | registration, heartbeat, deregistration and staleness marks, like release, expiry and revocation, add no lease, move none, activate none and leave locked rows as they are |
| LeaseSafety.ClosedForever | control-plane/internal/store/connections.go:55-61 | a released or expired lease stays exactly as it is through the rest of every run |
| LeaseCapacity.CapacityOvershoot | control-plane/internal/store/connections.go:63-107 | with a fixed capacity and at most n connects open, never more than capacity + n - 1 active leases, so never above it when connects are serial |
| LeaseCapacity.ChoicePotential | control-plane/internal/selection/selection.go:60-74 | a choice reserves a place only while fewer than capacity leases are active; replacing the device's own lease there reserves nothing |
| LeaseCapacity.CommitPotential | control-plane/internal/store/connections.go:55-61 | a commit turns its reservation, or the device's own lease, into the new lease |
| CapacityReached.ReachedExactly | control-plane/internal/store/connections.go:82-107 | for every capacity, every n and every subnet with capacity + n - 1 hosts: the numbers of active leases that runs with at most n connects open can reach are exactly 0 to capacity + n - 1 |
| LeaseDevices.CommitKeepsOneExactly | control-plane/internal/store/connections.go:55-61 | a commit leaves every device with at most one active lease if and only if it releases every active lease that its device has at that moment |
| LeaseDevices.OneLeaseExactly | control-plane/internal/store/connections.go:55-61 | over every interleaving from empty tables no device ever has two active leases if and only if every commit releases all that its device holds by then |
| LeaseDevices.OneActiveLeasePerDevice | control-plane/internal/store/connections.go:55-61 | so it is in every interleaving in which step 1b never runs while another connect of the device is past it and releases all of the device's leases, whatever else runs in between |
| LeaseRaces.DeviceCanHoldTwoLeases | control-plane/internal/store/connections.go:55-61 | a run of two connects of a device without a lease after which it has two, unlike the comment's promise |
| LeaseRaces.ReconnectsCanLeaveTwoLeases | control-plane/internal/store/connections.go:55-61 | the same for a device with a lease: the second connect's release waits for the first, finds the old lease released and does not see the new one |
| LeaseKeys.QuietExactly | control-plane/internal/store/identity.go:170-191 | the last statement of a revocation leaves no active lease and no connect past its device check if and only if it sees all of the device's active leases and no connect of the device is past its check |
| LeaseKeys.RevokedKeyNeverServedAgain | control-plane/internal/store/identity.go:170-191 | then in every interleaving before and after it no gateway is told the device's key again, at any time |
| LeaseKeys.StaysGone | control-plane/internal/store/identity.go:170-191 | no statement of any operation brings anything of a revoked device back once nothing of it is left |
| KeyRevocation.ServedAgainExactly | control-plane/internal/store/identity.go:170-191 | after any run from empty tables a continuation in which a gateway is told a revoked device's key exists, however late, if and only if the device has an active lease or an open connect past its check that can still insert: one inserted already, a free address among those read, a subnet with hosts, or an open country |
| KeyRevocation.RevocationIsFinalExactly | control-plane/internal/store/identity.go:170-191 | so a revocation is final if and only if its last statement saw all of the device's active leases and no open connect of the device can still insert |
| LeaseRaces.RevokedKeyCanBeServed | control-plane/internal/store/identity.go:170-191 | a run in which all statements of a revocation have succeeded, the device has no lease and its key can still be served |
| AtomicConnects.AtomicRun | control-plane/internal/store/connections.go:36-147 | runs with uninterrupted connects are among the interleavings |
| AtomicConnects.AtomicRunIsApart | control-plane/internal/store/connections.go:36-147 | and in them the connects of a device do not overlap |
| PeerAddresses.ListedHostsApart | control-plane/internal/store/connections.go:216-252 | a gateway's listed peers have distinct IPv4 addresses in every state that a run can reach |
| PeerAddresses.ConvergesExactly | control-plane/internal/store/connections.go:216-252 | after every run and for every interface the agent may find, applying the plan for the listed peers ends with exactly those if and only if no two of them have the same IPv6 address |
| PeerAddresses.SameSubnetsConverge | control-plane/internal/store/gateways.go:74-94 | which is so in every run in which the gateway registers with the same subnets every time |
| PeerAddresses.ChangedSubnetCollides | control-plane/internal/store/gateways.go:81-94 | for any two IPv4 subnets and one IPv6 subnet: a run with strictly serial connects and a second registration in between after which two listed peers have the same IPv6 address |
| Store.Store.CreateConnection | control-plane/internal/store/connections.go:36-147 | on success the new row, field by field: the given id and expiry, the device and its key, and the fittest gateway that serves the country, has a heartbeat within the TTL and room, with the lowest host address that no other active lease there has and the IPv6 address at the same offset; the device's active leases are released and nothing else changes; it is a committed connect of the protocol; each of the three errors exactly when its cause is there, and then nothing has changed |
| Store.BestIsFittest | control-plane/internal/selection/selection.go:60-74 | the selected candidate is the first of the serving gateways with room that none is fitter than, by the leases that the connect does not replace |
| Store.ConnectIsRun | control-plane/internal/store/connections.go:36-147 | the table a successful connect leaves is what an atomic run of the protocol's statements leaves |
| Store.Store.UsedHostAddrs | control-plane/internal/store/connections.go:151-170 | the addresses of the gateway's active rows, without those this transaction released |
| Store.Store.ReleaseConnection | control-plane/internal/store/connections.go:256-269 | releases exactly the lease with the id if it is active and on a device of the user, or reports that there is none and changes nothing |
| Store.Store.RenewConnection | control-plane/internal/store/connections.go:273-285 | moves the expiry of exactly that lease, or reports that there is none and changes nothing |
| Store.Store.ExpireStaleLeases | control-plane/internal/store/connections.go:289-296 | exactly the active leases that expire before now become expired, and their number is returned |
| Store.Store.ExpireLeasesOnUnhealthyGateways | control-plane/internal/store/connections.go:302-311 | exactly the active leases on gateways whose status is not healthy become expired, and their number is returned |
| Store.Store.RevokeDevice | control-plane/internal/store/identity.go:170-191 | for a device of the user that is not revoked: it is revoked and its active leases expire, or at a later statement's error its leases stay as they are; otherwise not found; nothing else changes |
| Store.Store.ListPeers | control-plane/internal/store/connections.go:216-252 | each active, unexpired lease of the gateway with the token once, with its key and addresses; an error exactly when every gateway with the token is disabled or there is none |
| Allocation.AllocateHost | control-plane/internal/store/connections.go:175-212 | the lowest unused host strictly between .1 and broadcast for every prefix length 0 to 32, with 32-bit wrap-around, its IPv6 companion, and none exactly when all are used |
| Allocation.Address6InSubnet | control-plane/internal/store/connections.go:197-210 | the IPv6 address is in its subnet if and only if the host number fits in the host bits |
| Allocation.EnoughHostBits | control-plane/internal/store/connections.go:197-210 | so it is whenever the IPv6 subnet has at least as many host bits |
| Allocation.Address6Injective | control-plane/internal/store/connections.go:197-210 | different IPv4 hosts get different IPv6 addresses |
| Selection.Best | control-plane/internal/selection/selection.go:60-74 | the first of the fittest healthy candidates with room, and none exactly when there is no such candidate; of two that differ in traffic or in active peers alone, within their limits, never the busier one |
| Selection.FitnessRange | control-plane/internal/selection/selection.go:27-55 | fitness is between 0 and 1 whatever the measurements |
| Selection.FitnessValue | control-plane/internal/selection/selection.go:27-55 | seven tenths of the share of free places and three tenths of the share of free bandwidth; no bandwidth counts when all of it is in use, and places alone when none is advertised |
| Selection.FitnessFallsWithTraffic | control-plane/internal/selection/selection.go:35-42 | more traffic in either direction never makes a gateway fitter |
| Selection.LighterIsFitter | control-plane/internal/selection/selection.go:27-45 | of two that differ in traffic or in active peers alone, within their limits, the lighter one is strictly fitter |
| Selection.FitnessFallsWithLoad | control-plane/internal/selection/selection.go:27-45 | more active peers never make a gateway fitter |
| GatewayLife.HealthyIsAsOfItsLastBeat | control-plane/internal/store/gateways.go:106-158 | in every run from empty tables a gateway is healthy only as of a heartbeat with its present token, whose time and traffic its row has, after which it has neither registered nor signed off nor been found stale |
| GatewayLife.HealthyAfterBeat | control-plane/internal/store/gateways.go:106-158 | and it stays healthy through every run in which nothing of that happens |
| GatewayLife.BeatMakesHealthy | control-plane/internal/store/gateways.go:106-127 | a heartbeat with its token makes a gateway healthy if and only if it has not signed off |
| GatewayLife.SigningOff | control-plane/internal/store/gateways.go:130-143 | a farewell with its present token takes a gateway out |
| GatewayLife.DisabledUntilRegistered | control-plane/internal/store/gateways.go:130-143 | a gateway that has signed off stays out in every run, whatever heartbeats arrive, until it registers |
| GatewayLife.OldTokenIsUseless | control-plane/internal/store/gateways.go:81-94 | after a new registration a heartbeat or a farewell with the old token changes nothing |
| Reconcile.Diff | agent/internal/reconcile/reconcile.go:26-45 | adds exactly the new and changed peers as desired, removes exactly the undesired ones, both in increasing key order |
| Reconcile.PlanIsUnique | agent/internal/reconcile/reconcile.go:26-45 | there is one such plan: the iteration order of the maps does not show |
| Reconcile.SameSet | agent/internal/reconcile/reconcile.go:56-71 | true exactly for lists that are equal with multiplicities |
| Reconcile.Index | agent/internal/reconcile/reconcile.go:47-53 | the map of the last entry for each key |
| Reconcile.IndexedIsLast | agent/internal/reconcile/reconcile.go:47-53 | of several entries for a key the last one counts |
| Reconcile.IncreasingIsUnique | agent/internal/reconcile/reconcile.go:42-43 | increasing lists with the same elements are equal |
| WireGuard.Converges | agent/internal/wg/wg.go:65-77 | from any interface state, if the desired peers have disjoint allowed IPs, the plan ends with exactly the desired peers although a set address leaves its other owner |
| WireGuard.RightPeersUndisturbed | agent/internal/wg/wg.go:65-77 | a desired peer that is already right is right after every single command |
| WireGuard.RunAllKeepsOneOwner | agent/internal/wg/wg.go:53-62 | an allowed IP never has two owners after any commands |
| WireGuard.SettledPlan | agent/internal/reconcile/reconcile.go:26-45 | on an interface as desired, the plan is empty if and only if no desired list repeats an address |
| WireGuard.Runner.Apply | agent/internal/wg/wg.go:65-77 | stops at the first command that fails; the interface is what the commands before it made |
| WireGuard.Runner.Sync | agent/internal/wg/wg.go:44-77 | whatever a failed sync left, a successful one ends with exactly the desired peers; right peers stay right either way |
| WgQuickReader.Read | client/apple/PacketTunnel/TunnelConfiguration+WgQuickConfig.swift:39-125 | the one-pass reader accepts exactly the texts whose lines have a meaning - preamble and header-led sections checked and collated, one interface, distinct peer keys - and returns that meaning; a refused text has the fault that the error names |
| WgQuickReader.ReadLine | client/apple/PacketTunnel/TunnelConfiguration+WgQuickConfig.swift:50-89 | one line: refused exactly if it is invalid, repeats a key that may not repeat, or has a key foreign to its section; otherwise the attributes are those of the section with the line |
| WgQuickReader.AddAttribute | client/apple/PacketTunnel/TunnelConfiguration+WgQuickConfig.swift:62-87 | values of a repeatable key are joined in order; other repetitions and foreign keys are errors |
| WgQuickReader.EndSection | client/apple/PacketTunnel/TunnelConfiguration+WgQuickConfig.swift:93-103 | a section that ends becomes the interface or a further peer, or the text is hopeless |
| WgQuickReader.CollateInterface | client/apple/PacketTunnel/TunnelConfiguration+WgQuickConfig.swift:168-212 | the interface that the attributes describe, or an error, exactly when a value is missing or unreadable, that names such a value |
| WgQuickReader.CollatePeer | client/apple/PacketTunnel/TunnelConfiguration+WgQuickConfig.swift:214-251 | the peer that the attributes describe, or an error, exactly when a value is missing or unreadable, that names such a value |
| WgQuickReader.AttributesNext | client/apple/PacketTunnel/TunnelConfiguration+WgQuickConfig.swift:66-76 | a further value joins the earlier ones of its key and changes no other key |
| WgQuickReader.CountsDistinct | client/apple/PacketTunnel/TunnelConfiguration+WgQuickConfig.swift:114-118 | a list has as many distinct keys as entries exactly when none repeats |
| WgQuickReader.HopelessStays | client/apple/PacketTunnel/TunnelConfiguration+WgQuickConfig.swift:93-103 | a failure of the sections so far is a failure of the whole text |
| WgQuickLayout.ClassifyComment | client/apple/PacketTunnel/TunnelConfiguration+WgQuickConfig.swift:50-55 | what follows a number sign makes no difference to the kind, name, key and value of a line |
| WgQuickLayout.CommentsAreIgnored | client/apple/PacketTunnel/TunnelConfiguration+WgQuickConfig.swift:43-55 | comments after the lines of a text and the kinds of its line ends make no difference to what it means, and so to what is accepted |
| WgQuickLayout.ClassifyAttribute | client/apple/PacketTunnel/TunnelConfiguration+WgQuickConfig.swift:50-65 | a name in any letter case, with blanks and tabs around it, the equals sign and the value, and perhaps a comment, is read as the key it stands for and the value |
| WgQuickLayout.ClassifyHeader | client/apple/PacketTunnel/TunnelConfiguration+WgQuickConfig.swift:57-89 | a header in any letter case, with space around it and perhaps a comment, is that header |
| WgQuickSections.BlankLinesExactly | client/apple/PacketTunnel/TunnelConfiguration+WgQuickConfig.swift:60-103 | a blank or comment line can be added anywhere without a difference, except after a header on the last line of a text that is accepted |
| WgQuickSections.ListsAdd | client/apple/PacketTunnel/TunnelConfiguration+WgQuickConfig.swift:66-70 | several lines of addresses, allowed IPs or DNS servers in a section mean what one line with all the values would |
| WgQuickSections.RepeatedKeyIsRefused | client/apple/PacketTunnel/TunnelConfiguration+WgQuickConfig.swift:66-74 | a text is refused if any other key comes twice in a section or before the first |
| WgQuickSections.ForeignKeyIsRefused | client/apple/PacketTunnel/TunnelConfiguration+WgQuickConfig.swift:77-87 | a text is refused if a key is not one of the five of its section |
| WgQuickSections.PreambleIsIgnored | client/apple/PacketTunnel/TunnelConfiguration+WgQuickConfig.swift:47-112 | attributes before the first header are ignored unless a key that is no list comes twice |
| WgQuickSections.FinalHeader | client/apple/PacketTunnel/TunnelConfiguration+WgQuickConfig.swift:93-112 | a header on the last line opens no section; it is refused if the line before is a header too |
| WgQuickMeaning.MeaningExactly | client/apple/PacketTunnel/TunnelConfiguration+WgQuickConfig.swift:39-125 | a text means a configuration if and only if no line is invalid, no key that is no list comes twice before the first section, exactly one section is an interface and says it, the others say the peers in order, and their public keys differ |
| WgQuickMeaning.SectionsPartition | client/apple/PacketTunnel/TunnelConfiguration+WgQuickConfig.swift:93-112 | the preamble and the sections, each a header and the lines up to the next, are all the lines but a header on the last |
| WgQuickMeaning.InterfaceMeans | client/apple/PacketTunnel/TunnelConfiguration+WgQuickConfig.swift:168-212 | a section is read as an interface if and only if it has known keys only, at most one line for each that is no list, and each value is what the field says: addresses all readable, DNS items divided in order into servers and search domains |
| WgQuickMeaning.PeerMeans | client/apple/PacketTunnel/TunnelConfiguration+WgQuickConfig.swift:214-251 | the same for a peer |
| WgQuickMeaning.ItemsOfList | client/apple/PacketTunnel/String+ArrayConversion.swift:9-18 | the items of joined values are the items of each value, in order |
| ConfigText.PortForms | client/apple/PacketTunnel/TunnelConfiguration+WgQuickConfig.swift:176-181 | decimal numbers below 65536 with any leading zeros and a plus sign are read with their value, larger ones are refused, and a minus sign is for zero only |
| ConfigText.OnlyNumerals | client/apple/PacketTunnel/TunnelConfiguration+WgQuickConfig.swift:176-181 | no text other than digits after a sign or none is read as a number |
| WgQuickWriter.Write | client/apple/PacketTunnel/TunnelConfiguration+WgQuickConfig.swift:127-166 | what is appended step by step is the text of the configuration's lines in order |
| WgQuickInverse.ReadUndoesWrite | client/apple/PacketTunnel/TunnelConfiguration+WgQuickConfig.swift:39-251 | reading what was written gives the configuration back if and only if it is well formed: distinct peer keys, clean search domains that are no addresses, and no empty domain at an end of the DNS line |
| WgQuickInverse.MeaningOfWritten | client/apple/PacketTunnel/TunnelConfiguration+WgQuickConfig.swift:127-251 | what any written configuration is read as: the same but for the DNS line |
| WgQuickInverse.RereadIsSame | client/apple/PacketTunnel/TunnelConfiguration+WgQuickConfig.swift:137-142 | the DNS line is read back as it was if and only if its ends are not empty |
| WgQuickInverse.ReadDomains | client/apple/PacketTunnel/TunnelConfiguration+WgQuickConfig.swift:192-204 | search domains that were read are trimmed, without separators, and no addresses of servers |
| WgQuickLines.ClassifyAssign | client/apple/PacketTunnel/TunnelConfiguration+WgQuickConfig.swift:54-65 | a written line is read as its name, its name in lower case and its trimmed value |
| WgQuickItems.ItemsOfJoin | client/apple/PacketTunnel/String+ArrayConversion.swift:9-18 | a list of trimmed items without commas, the first not empty, is found again by splitting and trimming |
| WgQuickItems.FewItems | client/apple/PacketTunnel/TunnelConfiguration+WgQuickConfig.swift:137-142 | a DNS line with an empty first or last item is read as fewer items |
| ConfigText.DecimalRoundTrip | client/apple/PacketTunnel/TunnelConfiguration+WgQuickConfig.swift:130-132 | a 16-bit number is read back from its decimal text |
| RateLimit.Limiter.constructor | control-plane/internal/ratelimit/ratelimit.go:31-39 | the interval is 60000000000 nanoseconds divided by the rate, rounded down, and the burst is at least one |
| RateLimit.Limiter.Allow | control-plane/internal/ratelimit/ratelimit.go:42-52 | a key not seen is let in, and one that was if its credit and the time since make up an interval; one token is taken then, refilled by the time since the last grant and capped at the burst; the visit is recorded and no other key changes |
| RateLimit.Limiter.Cleanup | control-plane/internal/ratelimit/ratelimit.go:55-64 | removes exactly the keys not seen for longer than ten minutes and keeps the others as they are |
| RateLimit.EvictionIsInvisible | control-plane/internal/ratelimit/ratelimit.go:42-64 | over every schedule of calls and clean-ups the answers are those of a limiter that never evicts, if and only if burst times interval is at most the TTL plus a nanosecond |
| RateLimit.TenMinutesCoverBurst | control-plane/internal/ratelimit/ratelimit.go:31-39 | so it is whenever the burst is at most ten times the rate per minute |
| RateLimit.WindowBound | control-plane/internal/ratelimit/ratelimit.go:42-64 | then a key is granted at most burst + T / interval calls in any window of length T |
| RateLimit.GrantsArePaid | control-plane/internal/ratelimit/ratelimit.go:42-52 | what is granted is paid from the credit at the start and the time that passes |
| RateLimit.SecondBurst | control-plane/internal/ratelimit/ratelimit.go:55-64 | beyond that bound there is a schedule whose second burst is granted only because the key was forgotten |
| Adapter.EveryRunIsGood | client/apple/Packages/WireGuardKit/Sources/WireGuardKit/WireGuardAdapter.swift:177-286 | over every sequence of operations, whatever the system answers, the backend has exactly the handle and settings of the state, is never started twice or used after shutdown, and is watched exactly while not stopped |
| Adapter.StartsAndShutdowns | client/apple/Packages/WireGuardKit/Sources/WireGuardKit/WireGuardAdapter.swift:177-286 | starts minus shutdowns is 1 exactly while started and 0 otherwise; the monitor is set exactly while not stopped |
| Adapter.LiveExactly | client/apple/Packages/WireGuardKit/Sources/WireGuardKit/WireGuardAdapter.swift:177-466 | over every sequence of operations, whatever the system answers: the backend is live if and only if a start has succeeded with no stop since and the network has not gone without coming back with a backend that starts; then with the handle it was last started with and the settings accepted last |
| Adapter.CallsAdded | client/apple/Packages/WireGuardKit/Sources/WireGuardKit/WireGuardAdapter.swift:177-466 | the backend calls that each further operation makes, told by the operations alone |
| Adapter.LosingTheNetwork | client/apple/Packages/WireGuardKit/Sources/WireGuardKit/WireGuardAdapter.swift:434-438 | after an unsatisfiable path no backend is live; a started one is turned off by the one new call and its settings are kept |
| Adapter.ResumeUsesLastAccepted | client/apple/Packages/WireGuardKit/Sources/WireGuardKit/WireGuardAdapter.swift:441-460 | only a satisfiable path resumes the backend, with the settings of the last start or update that reported no error |
| Adapter.WireGuardAdapter.Start | client/apple/Packages/WireGuardKit/Sources/WireGuardKit/WireGuardAdapter.swift:177-210 | each error exactly when its cause is there, and then nothing has changed; result, new state and backend calls for every combination of answers |
| Adapter.WireGuardAdapter.Stop | client/apple/Packages/WireGuardKit/Sources/WireGuardKit/WireGuardAdapter.swift:214-235 | result, new state and backend calls from every state |
| Adapter.WireGuardAdapter.Update | client/apple/Packages/WireGuardKit/Sources/WireGuardKit/WireGuardAdapter.swift:241-286 | each error exactly when its cause is there, and then nothing has changed; result, new state and backend calls for every combination of answers |
| Adapter.WireGuardAdapter.DidReceivePathUpdate | client/apple/Packages/WireGuardKit/Sources/WireGuardKit/WireGuardAdapter.swift:416-466 | new state and backend calls; a failed resume changes nothing |
| Adapter.WireGuardAdapter.Deinit | client/apple/Packages/WireGuardKit/Sources/WireGuardKit/WireGuardAdapter.swift:139-151 | leaves no backend running and no monitor |
| Client.EveryRun | client/core/src/client.rs:169-267 | over every sequence of completed calls: a connection under way has an id, disconnected means no id, start time or statistics, Connected is assigned only to a connecting client |
| Client.CallsFollowTable | client/core/src/state.rs:29-44 | every state a call assigns is allowed by the transition table, except exactly marking failed when disconnected or failed, and disconnecting when failed or already disconnecting |
| Client.AfterKeepsInv | client/core/src/client.rs:169-356 | every call with arbitrary replies keeps the invariant |
| Client.AuthedKeepsTheTokenThatWorked | client/core/src/client.rs:364-397 | a success was answered to the token that is kept, by the request or its repetition; only a missing or rejected token is replaced |
| Client.AuthedMeans | client/core/src/client.rs:364-397 | the answer is that of one request or, if it is rejected, of one repetition after one refresh, with each way the refresh can fail; the token kept is the last one obtained |
| Client.VpnClient.RunAuthed | client/core/src/client.rs:364-397 | at most one refresh before and one after a 401; answer and kept token for all replies, also when the repetition with the same token is answered differently |
| Client.VpnClient.Prepare | client/core/src/client.rs:169-209 | refused exactly unless disconnected or failed, and without a session, leaving everything as it was; else connecting with the reply's id, server and probe address, or failed with the error |
| Client.VpnClient.ConnectTo | client/core/src/client.rs:234-242 | on success connected since now, with the reply's id, server and probe address and no statistics; failed with the error of the request or of bringing the tunnel up |
| Client.VpnClient.DisconnectNow | client/core/src/client.rs:245-267 | clears everything, or stays disconnecting when the tunnel cannot be taken down |
| Client.VpnClient.RenewLease | client/core/src/client.rs:342-359 | renews only while connected with an id; otherwise nothing happens |
| Client.VpnClient.EnrollDevice | client/core/src/client.rs:115-146 | keeps the token and the session of a successful enrolment, and nothing of a failed one |
| Client.RateMeans | client/core/src/client.rs:69-74 | the real quotient by seconds, rounded down, is the largest number of whole bytes per second that fits |
| Client.VpnClient.ReportStats | client/core/src/client.rs:287-328 | only while connected; download from received and upload from sent bytes, each the whole bytes per second since the last sample, rounded down, zero when a counter went back or no time has passed, at most the largest 64-bit number; the sample, the latency and the token are kept, nothing else changes |
| AddressRange.SubnetMask | client/apple/Packages/WireGuardKit/Sources/WireGuardKit/IPAddressRange.swift:68-95 | exactly the first n bits are set, for every n up to 32 or 128; byte fill and 32-bit patch agree |
| AddressRange.MaskedAddress | client/apple/Packages/WireGuardKit/Sources/WireGuardKit/IPAddressRange.swift:97-114 | the address minus its remainder modulo 2^(width - n) |
| AddressRange.MaskedTwice | client/apple/Packages/WireGuardKit/Sources/WireGuardKit/IPAddressRange.swift:97-114 | masking is idempotent and leaves all host bits clear |

## Left out

- HTTP handlers, configuration, logging, metrics, JSON, tokens and passwords: plumbing around the modelled operations.
- PostgreSQL itself: only committed rows, a fresh snapshot for each statement, row locks until the end of the transaction, and rollback. Deletion of users, devices and gateways with its cascades is not modelled.
- Enrolment, invites and refresh tokens: `Enroll` and `CreateDevice` appear as one step that adds a device with a fresh key; the statement of a revocation that writes refresh tokens changes nothing in the model.
- Gateway names, cities, endpoints and coordinates; active_peers and cpu_pct columns, which selection replaces by the lease count or does not use.
- CapacityReached.ReachedExactly: for subnets with at least capacity + n - 1 hosts; on a smaller one the hosts are the bound while the subnet does not change.
- KeyRevocation.ServedAgainExactly: a continuation may register gateways, renew leases and run at any later time; that it will come about is not stated.
- PeerAddresses.ConvergesExactly: how keys and addresses are written is a parameter, distinct texts for distinct values; a token names one gateway, which its 32 random bytes make so.
- Selection.Best: fitness is over reals, without floating-point rounding; the weights are non-negative and sum to one as the defaults do.
- Allocation.AllocateHost: an IPv6 network in the IPv4 subnet column and text that is no network are not modelled; addresses are numbers, not text.
- Reconcile.Diff: `sort.Strings` is an insertion sort; strings are compared by characters.
- WireGuard.Runner.Apply: the `wg` process and its output; the interface is a map from key to allowed IPs, and setting an allowed IP takes it from its other owner (section 2 of the WireGuard whitepaper).
- KeyCodec.KeyFromBase64: the text is a sequence of bytes without a zero byte, for the C string; that the bytes of a failed decoding are unspecified is not used. Plain char is signed. Constant running time is not stated.
- KeyPair.GeneratePrivateKey: the random bytes are given; failure of the generator is an assertion in the source.
- Curve25519.SharedSecret: the group law of the curve, primality of p and Fermat's theorem are not used; inversion is the power p - 2, as in the RFC.
- WgQuickReader.Read: of a text with several faults it is not stated which one is reported. Text is a sequence of characters, one code point each: a carriage return and line feed, and a letter with combining marks, are several.
- WgQuick.Interface: equality of configurations is equality of all fields in order; the source ignores some orders and the tunnel's name, which is not part of the text.
- WgQuickWriter.Write: transfer statistics of a peer, which are not written, are not part of the model.
- RateLimit.Limiter.Allow: one clock reading for a call; the source reads the clock twice under its lock. The token bucket of the library counts in nanoseconds here, without floating-point rounding.
- Adapter.WireGuardAdapter.DidReceivePathUpdate: the iOS branch; the macOS branch only bumps sockets. A network-settings call that times out counts as applied, as in the source.
- Client.VpnClient.RunAuthed: calls of one client do not overlap; the mutex is released during requests in the source.
- Client.VpnClient.ReportStats: byte rates are over reals and rounded down; the report sent upstream, whose multiplication by eight is a signed 64-bit one, is not modelled.
- IP address parsing, endpoint parsing, DNS resolution, the system's network settings: parameters or abstract formats.
- User interfaces, key stores, services, foreign-function wrappers and scripts.
