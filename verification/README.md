# Crypto Claw: a verified model

Crypto Claw signs blockchain transactions with keys that two parties hold as shares. Party A builds a
transaction, Party B analyses it and decides, alone or by asking a user, and both run a threshold
signature. An installer can rebuild every key from the mnemonic. This project models the parts of that
system whose correctness rests on several pieces agreeing with each other, and proves that they do.

- **Key algebra.** Shamir splitting, child-key derivation on shares, recovery from the mnemonic and
  raw-scalar Ed25519 signing are modelled with their loops, modular arithmetic and byte layouts, and
  proved to commute: whatever the path, the parties' child shares interpolate to the very key the
  installer recovers, and that key signs for the parties' address. Fermat's little theorem, the
  non-residuosity of 2 modulo a prime that is 5 modulo 8, and Lagrange interpolation modulo a prime are
  proved, not assumed (`PrimeField`, `Ed25519Codec`, `Shamir`, `Group`, `KeyDerivation`, `PartyIds`,
  `Dealer`, `Recovery`, `Bip32`, `Deployment`, `Ed25519Sign`, `PathParsers`).
- **The signing protocol.** The steps of Party B's goroutines between two synchronisation points, Party A's
  calls and the network's deliveries are events; the theorems quantify over every interleaving of them
  (`Analyzer`, `PartyB`, `Protocol`, `GivingUp`, `SolanaSigning`, `WhitelistOrigin`,
  `EscalationQueue`).
- **Transport.** Framing under concurrent writers, and request/response correlation (`Framing`,
  `Correlation`).
- **Solana.** The four-pass account resolver, Borsh arguments and signature slots (`SnakeCase`,
  `AccountResolver`, `ResolvedAccounts`, `Borsh`, `SolanaSlots`).
- **The staking contract** and its token (`Staking`).

`dafny verify dfyconfig.toml` checks everything.

## Assumptions

- A curve is a record of functions with the group laws as a hypothesis (`Group.IsGroup`, and
  `Recovery.IsEdwards` for Ed25519, which adds the curve equation and the field prime). Both hypotheses are
  shown to be satisfiable (`Group.PairIsGroup`, `Recovery.PairIsEdwards`). HMAC-SHA512 and SHA-512 are
  arbitrary functions. The mnemonic enters as its seed, random coefficients as a parameter.
- `deriveECDSA` and `deriveEdDSA` run one and the same loop, told apart by a `Kind`; the library's sort of
  party IDs is an insertion sort on their keys.
- `tss.Sign` is one step that records the message and path it was entered with. Store writes succeed, a
  derived-key lookup returns the record of the path asked for, and transaction IDs are fresh. The channel
  may delay, reorder and lose messages but not duplicate or invent them. Party B reads its connection one
  message at a time; the model allows more interleavings than that.
- solana-go, base58, base64 and `FindProgramAddress` are functions. Assumed of them, and only where a row's
  contract says so: `SolanaSlots.Sound` (encodings read back, Ed25519 signatures verify), `Borsh.KeyReader`
  (32-byte keys), `AccountResolver.FindsAddresses` (an address is found for at most 15 seeds of at most 32
  bytes, the bump being the sixteenth) and `Protocol.ReadsBack` (base64 reads back, both parties have the same
  adapters).
- The analyzer's whitelist lookups are one step, but may have found any part of what is whitelisted by then,
  so they may as well be spread over the additions, each of which is a step of its own.
- The token under the staking contract is the repository's own ERC-20, and the staking contract never
  calls itself, so its address is nobody's caller.

## Findings

Where the code does less than a reader may expect, the model follows the code and says exactly when it
meets the expectation:

- The Ed25519 decoder does not reject a y that belongs to no point: y = 2 is one, modulo 2^255 - 19 itself
  (`Ed25519Codec.DecodesOffCurve`). Its result is a point exactly when the root squares to the quotient, a test
  it leaves out (`Ed25519Codec.DecodedIsOnCurveIff`).
- A dealer with threshold 0 hands out the secret unreduced (`Shamir.ShareReducedIff`).
- The installer's path parser accepts paths that the parties refuse (`PathParsers.InstallerAcceptsMore`);
  `PathParsers.PartiesReadWhatInstallerReadsIff` says when they agree.
- A public share becomes nil exactly when a path moves that party's share to 0 on a curve without coordinates
  for the identity (`Dealer.DerivedPublicSharesMatch`), and for every party there are HMAC values and a path of
  one or two levels that do so while every party's derivation succeeds (`Dealer.PublicShareLost`).
- The whitelist is consulted for the recipients in the transaction's bytes only if they name any. Where nothing
  can be decoded, or the bytes are a contract creation, whose recipient list is empty (internal/vm/evm/evm.go:176),
  the recipients that Party A merely claims take their place, and auto mode signs with nobody asked.
  `Analyzer.RestsOnBytesIff` says when a whitelisted analysis rests on the bytes,
  `PartyB.ClaimSignsUnseenIff` when a request whose bytes name nobody is signed unseen, and
  `PartyB.UndecodedIsSignedUnseen` and `PartyB.CreationIsSignedUnseen` are such requests.
- A value above the limit escalates but keeps the whitelist flag, so auto mode signs it unseen exactly when
  some recipient is listed (`PartyB.HighValueSignsUnseenIff`). One listed recipient is enough, whoever the
  others are (`PartyB.SignsUnseenIff`).
- Party B signs the bytes of Party A's sign-ready message without comparing them to what it analysed: its
  side alone signs any bytes (`PartyB.AutoModeCanSign`), and that they are those of the transaction submitted for
  analysis rests on Party A (`Protocol.SignsWhatWasAnalysed`).
- A PDA seeded by a well-known program name, or derived against one, can end up with a key that the final
  map does not bear out, because an account of that name with another key is resolved later
  (`ResolvedAccounts.ShadowedProgram` is such a resolution); `ResolvedAccounts.InputsFinalIff` says exactly
  when. On the instruction alone, `ResolvedAccounts.ReadyFinalIff` gives the exact condition for PDAs whose seeds
  need no account but preset ones, and `ResolvedAccounts.TidyRunIsSolution` one that rules it out for all.
- Integer arguments out of range wrap silently, unsigned ones lose their sign (`Borsh.SignIsDropped`), and
  `bytes` arguments go without their length, so that no program reads them back; `Borsh.ValueRoundTripIff` says
  exactly which arguments are read back.

## Model

| member | source | states |
|---|---|---|
| PrimeField.Fermat | cmd/installer/mnemonic.go:480-488 | x^(p-1) is 1 modulo a prime p for every x it does not divide; the fact behind the decoder's square root and modular inverses |
| PrimeField.TwoIsNonResidue | cmd/installer/mnemonic.go:487-495 | for a prime p that is 5 modulo 8, 2^((p-1)/2) is -1, so 2^((p-1)/4) is a square root of -1, the decoder's correction factor |
| Bytes.ReverseMinimal | cmd/installer/mnemonic.go:519-529 | reversing big.Int's bytes into a zeroed buffer gives the little-endian bytes of the number, for every number that fits |
| Ed25519Codec.EncodePoint | cmd/installer/mnemonic.go:506-529 | the in-place loops produce the encoding of section 5.1.2 of RFC 8032: y in little-endian with the parity of x in the top bit |
| Ed25519Codec.DecodePoint | cmd/installer/mnemonic.go:440-503 | the in-place decoder computes the specification Decode, and leaves its input as it was |
| Ed25519Codec.CandidateIsRoot | cmd/installer/mnemonic.go:476-495 | if x2 is a square modulo p, x2^((p+3)/8) or its product with 2^((p-1)/4) squares to x2 |
| Ed25519Codec.DecodeUndoesEncode | cmd/installer/mnemonic.go:440-529 | for every prime p that is 5 modulo 8 and below 2^255, decoding the encoding of any point of the curve gives that point back, both coordinates |
| Ed25519Codec.DecodedIsOnCurveIff | cmd/installer/mnemonic.go:440-503 | what the decoder returns lies on the curve if and only if the root it computed squares to the quotient, which it does not test, and if and only if some point has that y |
| Ed25519Codec.DecodesOffCurve | cmd/installer/mnemonic.go:440-503 | modulo the prime 2^255 - 19, the encoding of y = 2 is decoded, to a point off the curve |
| Shamir.ShamirSplit | internal/tss/dealer.go:191-220 | every share the nested loops produce is the share function of the secret, the coefficients and that party's ID |
| Shamir.EvaluateShare | internal/tss/dealer.go:204-216 | the inner loop over coefficients and powers leaves the share of that ID in xi |
| Shamir.InterpolatePoly | internal/tss/dealer.go:191-220 | Lagrange interpolation at 0 over distinct nonzero points modulo a prime recovers the constant term of any polynomial with no more coefficients than points |
| Shamir.InterpolateShifted | internal/tss/derivation.go:84-88 | adding s to every share adds s to what they interpolate to: the Lagrange coefficients at 0 sum to 1 |
| Shamir.AnyQuorumReconstructs | internal/tss/dealer.go:191-220 | any threshold + 1 of the shares, whichever the parties, interpolate to the secret modulo the order, also for an unreduced secret |
| Shamir.ShareReducedIff | internal/tss/dealer.go:191-220 | shares lie in [0, modulus) if and only if the threshold is at least 1 or the secret was reduced |
| PartyIds.KeysAgreeIff | internal/tss/dkg.go:48-61 | two party names get the same key if and only if they agree after stripping leading NUL bytes |
| PartyIds.KeysArePointsIff | internal/tss/dkg.go:48-61 | the keys of names of at most 31 bytes are distinct and nonzero modulo the order if and only if the names are pairwise different and nonempty after stripping leading NULs |
| PartyIds.SortedIsPermutation | internal/tss/dkg.go:48-61 | sorting keeps every party once and orders them by key |
| PartyIds.SortIgnoresListing | internal/tss/dkg.go:48-61 | parties that list the same peers in different orders compute the same sorted list |
| PartyIds.FindPartyID | internal/tss/dkg.go:63-70 | the search finds the first entry of that name, or there is none |
| KeyDerivation.CompressPublicKey | internal/tss/derivation.go:268-278 | the buffer holds the parity byte and the 32 big-endian bytes of x |
| KeyDerivation.DeriveLoop | internal/tss/derivation.go:61-136 | the per-level loop over share, public key, chain code and the public shares in place computes the specification Derive, with the same failures; `Bip32.DeriveIsBip32` says what that is |
| KeyDerivation.ShiftInPlace | internal/tss/derivation.go:99-108 | the public shares are moved in place by the tweak's point; nil entries stay nil and points off the curve become nil |
| KeyDerivation.DeriveECDSA | internal/tss/derivation.go:50-136 | returns the derived state (`Bip32.DeriveIsBip32`) and the 65 uncompressed bytes of its public key |
| KeyDerivation.DeriveEdDSA | internal/tss/derivation.go:141-229 | returns the derived state (`Bip32.DeriveIsBip32`) and the 32 encoded bytes of its public key |
| KeyDerivation.DeriveFollowsWalk | internal/tss/derivation.go:61-135 | derivation succeeds or fails by public data only, and returns the share plus the path's total tweak beside the public child |
| KeyDerivation.WalkTracksScalar | internal/tss/derivation.go:84-97 | starting from the point of a scalar, the public walk ends at the point of that scalar plus the total tweak, at every depth |
| KeyDerivation.DeriveTracksPublicShare | internal/tss/derivation.go:99-108 | a public share that is its owner's point stays that after any path, or becomes nil exactly when the share vanishes where the identity has no coordinates |
| Bip32.DeriveIsBip32 | internal/tss/derivation.go:61-136 | a party's derivation ends with a share, public key and chain code exactly when BIP-32 leads there: at every level the parity of y, the 32 bytes of x and the 4 bytes of the index are hashed under the chain code, the left half is added, the right half is the next chain code |
| Bip32.SiblingsDiffer | internal/tss/derivation.go:70-79 | under an HMAC whose right half tells data apart, different indices give different chain codes |
| Dealer.DealerSetupECDSA | internal/tss/dealer.go:21-116 | the setup loops deal exactly the shares and public shares of Deal, over the sorted parties |
| Dealer.DealerSetupEdDSA | internal/tss/dealer.go:120-186 | the same for the Ed25519 scalar, whose public key is its own point |
| Dealer.ComputePublicShares | internal/tss/dealer.go:49-58 | the loop computes every public share, or reports that one is not on the curve |
| Dealer.DealSucceedsIff | internal/tss/dealer.go:49-75 | dealing fails exactly when the public key is off the curve, or some share is 0 modulo the order on a curve without coordinates for the identity |
| Dealer.DealtSharesRepresent | internal/tss/dealer.go:141-157 | the dealt states represent the secret: every quorum reconstructs it, all hold its public point and chain code, and every public share is its owner's point |
| Dealer.PartiesSucceedTogether | internal/tss/derivation.go:61-135 | one party's derivation succeeds exactly when every party's does, and then with the same child public key and chain code |
| Dealer.DerivedSharesRepresent | internal/tss/derivation.go:70-104 | derivation commutes with sharing: for every path the child shares represent the master secret plus the total tweak, with the child public key as its point |
| Dealer.DerivedPublicSharesMatch | internal/tss/derivation.go:99-108 | after derivation every copy of every public share is its owner's child share times the base point, or nil exactly when that share vanished |
| Dealer.PublicShareLost | internal/tss/derivation.go:99-108 | on a curve without coordinates for the identity, every party's public share can be lost: some HMAC and path make all copies of it nil while every party's derivation succeeds |
| PathParsers.ParsePathLoop | internal/tss/derivation.go:232-265 | the parties' loop reads exactly the specification's 31-bit checked index list |
| PathParsers.ParseBIP32PathLoop | cmd/installer/mnemonic.go:532-564 | the installer's loop, with its wrapping 32-bit accumulator, reads exactly its own specification |
| PathParsers.SplitPath | cmd/installer/mnemonic.go:573-583 | the installer's splitting loop gives the same parts as the library split of the parties |
| PathParsers.WrappedIsModulo | cmd/installer/mnemonic.go:546-556 | the wrapping accumulator holds the numeral modulo 2^32 |
| PathParsers.InstallerReadsWhatPartiesRead | internal/tss/derivation.go:232-265 | whenever the parties read a nonempty list from a path, the installer reads the same list |
| PathParsers.PartiesReadWhatInstallerReadsIff | cmd/installer/mnemonic.go:532-564 | on a path the installer reads, the parties read the same if and only if every nonempty component has digits and their value fits in 31 bits |
| PathParsers.RenderedPathParses | internal/tss/derivation.go:232-265 | the canonical rendering of any list of 32-bit indices, with any of the three hardening marks, parses back to that list in both parsers |
| PathParsers.InstallerAcceptsMore | cmd/installer/mnemonic.go:532-564 | two concrete paths that the installer accepts and the parties refuse: a bare hardening mark, and 2^32 |
| Recovery.DeriveECDSAKeyTSS | cmd/installer/mnemonic.go:198-284 | the installer's level loop computes RecoverECDSA (`Bip32.RecoverECDSAIsBip32`), and returns the point of the scalar |
| Recovery.DeriveECDSAKey | cmd/installer/mnemonic.go:80-102 | key and chain code are the two halves of the HMAC of the seed under "Bitcoin seed", an error exactly when the left half is 0 or not below the order; the 65 bytes start with 4 and read back as the key's public point |
| Recovery.UncompressedReadsBack | internal/tss/dealer.go:60-66 | the 65 bytes handed to the dealer start with 4 and read back as the same point |
| Recovery.EcdsaLevelsFollowWalk | cmd/installer/mnemonic.go:225-252 | walking on the private key adds the same tweaks as the public walk that the parties make |
| Recovery.EcdsaRecoveryAgrees | cmd/installer/mnemonic.go:198-284 | for every seed and every path that both sides read: if the key recovered at it exists, every party's derivation succeeds and the child shares represent the recovered key |
| Recovery.ClampedIs | cmd/installer/mnemonic.go:326-340 | the clamped scalar is 2^254 plus the low 254 bits of the hash's first half with the lowest three cleared |
| Recovery.ClampedRange | cmd/installer/mnemonic.go:326-340 | so it is a multiple of 8 in [2^254, 2^255) |
| Recovery.ClampScalar | cmd/installer/mnemonic.go:326-337 | the bit operations and the reversal loop compute the clamped little-endian scalar |
| Recovery.DeriveScalarAtPath | cmd/installer/ed25519_sign.go:456-517 | the loop over scalar, point and chain code computes RecoverEd (`Bip32.RecoverEdIsBip32`), through the decoding of the master public key |
| Recovery.ExportSolanaKeyAtPath | cmd/installer/mnemonic.go:309-402 | exports the same scalar in 32 little-endian bytes and encoded point as deriveScalarAtPath |
| Recovery.EdRecoveryAgrees | cmd/installer/mnemonic.go:309-402 | for every seed and path, every party's derivation succeeds, the child shares represent the recovered scalar, and the recovered point is its public key; needs at least two parties |
| Bip32.RecoverECDSAIsBip32 | cmd/installer/mnemonic.go:198-252 | the installer recovers a key at a path exactly when BIP-32, from the halves of the seed's HMAC, leads to it through nonzero keys |
| Bip32.MasterIsSlip10 | cmd/installer/mnemonic.go:406-431 | the Ed25519 master is that of SLIP-0010 at m/44'/501'/0'/0': a zero byte, the key and the index are hashed under the chain code |
| Bip32.RecoverEdIsBip32 | cmd/installer/mnemonic.go:322-375 | the installer recovers a scalar and point at a path exactly when BIP-32 leads to them from the clamped master |
| Deployment.SplitECDSA | cmd/installer/handlers.go:944-984 | from a seed, what the dealer hands out represents the seed's master key, with matching public shares, or a step has returned an error |
| Deployment.SplitEdDSA | cmd/installer/handlers.go:986-994 | the same for the clamped Ed25519 scalar |
| Deployment.DealDeriveRecoverECDSA | cmd/installer/mnemonic.go:198-284 | from one seed, dealing, deriving at every party and recovering with the code's own methods: whenever the recovery succeeds on a path the parties read, every party has derived a child, the children represent the recovered key, and the point is its public key |
| Deployment.DealDeriveRecoverEdDSA | cmd/installer/ed25519_sign.go:456-517 | the same for Ed25519, where every nonempty path that the parties read can also be recovered |
| Ed25519Sign.SignEd25519WithScalar | cmd/installer/ed25519_sign.go:34-83 | the buffers hold R, the point of the nonce SHA-512(scalar, message), and little-endian S = k s + r for k = SHA-512(R, public key, message), all modulo the order and also when S has leading zero bytes |
| Ed25519Sign.SignaturesVerify | cmd/installer/ed25519_sign.go:34-83 | for every scalar, reduced or clamped, and every message the signature decodes and satisfies S B = R + k A, with S below the order and k the hash of R, public key and message (section 5.1.7 of RFC 8032) |
| Ed25519Sign.RecoveredKeySigns | cmd/installer/ed25519_sign.go:87-166 | the key that deriveScalarAtPath returns signs for the address of its own path |
| Analyzer.BytesEqual | internal/partyb/analyzer/analyzer.go:362-372 | true if and only if the byte strings are equal |
| Analyzer.DeterministicChecks | internal/partyb/analyzer/analyzer.go:216-256 | rejects exactly no recipient, the zero address in any case and an unreadable value; else escalates a value above 10^20, and nothing else |
| Analyzer.CheckWhitelist | internal/partyb/analyzer/analyzer.go:153-166 | the loop reports a hit if and only if some recipient's lookup succeeds and finds it |
| Analyzer.CaseDoesNotMatter | internal/store/postgres.go:435-441 | addresses that differ only in case are one and the same to whitelist and zero-address check |
| Analyzer.Analyze | internal/partyb/analyzer/analyzer.go:82-213 | the step-by-step analysis equals AnalysisOf (`Analyzer.VerdictIff`), error paths included |
| Analyzer.WhatIsRead | internal/partyb/analyzer/analyzer.go:87-115 | what is decoded, and that exactly recomputed and claimed bytes that both exist and differ count as tampering |
| Analyzer.VerdictIff | internal/partyb/analyzer/analyzer.go:117-213 | exactly when the analysis rejects, approves and finds a listed recipient: a language model's answer counts where no rule objects, its rejection included, and without one a listed recipient decides |
| Analyzer.ClaimsFillGapsOnly | internal/partyb/analyzer/analyzer.go:141-150 | where the bytes carry a value, or a recipient, the analysis does not depend on the claimed one |
| Analyzer.WhitelistedMeans | internal/partyb/analyzer/analyzer.go:126-173 | a whitelisted analysis that does not reject saw no differing bytes and a listed recipient among the effective ones, those in the bytes if they name any and else the claimed ones, none of them the zero address |
| Analyzer.RestsOnBytesIff | internal/partyb/analyzer/analyzer.go:126-166 | such an analysis rests on a listed recipient in the bytes if and only if the bytes name any recipient; otherwise a merely claimed one is listed |
| Analyzer.RulesBindTheModel | internal/partyb/analyzer/analyzer.go:141-213 | no answer of a language model turns a rule's rejection into anything else, or any objection into an approval |
| PartyB.StepKeepsInv | internal/partyb/service.go:150-404 | every step of handler, waiter, signer and callbacks keeps the control, status, press, entry and history invariants |
| PartyB.AuthorisedAtMostOnce | internal/partyb/service.go:150-391 | in every run tss.Sign is entered at most once per transaction, never after a rejection by the analyzer, and only if the waiter consumed an approving press before its timeout, or auto mode saw an analysis that, with the whitelist and adapters it consulted, found no differing bytes and a listed recipient: in the bytes if they name any, else among the claimed ones |
| PartyB.HistoryIsAPath | internal/store/postgres.go:337-349 | although the update has no guard, the status history is one of pending, rejected after pending, or approved and then signed or rejected, and signed bytes are stored exactly when the status is signed |
| PartyB.SettledForGood | internal/partyb/service.go:276-404 | along every run a final status, an answer, a verdict and an entry into tss.Sign never change again, whatever is pressed later |
| PartyB.FailureIsFinal | internal/partyb/service.go:190-391 | in every run, after a rejection or a failed notification the answer and the stored status are rejected and nothing is ever signed; after missing bytes or a missing key tss.Sign is never entered and nothing is stored as signed |
| PartyB.CallbacksFindExactly | internal/partyb/service.go:332-404 | in every run a press finds its channel exactly from its registration until the waiter unregisters it, whitelisting finds the request until the waiter has left, and bytes find the signer's channel exactly while it holds it |
| PartyB.ApprovedPressIs | internal/partyb/service.go:394-404 | the approving press that authorises a signature is recorded exactly when some approving press found its channel registered |
| PartyB.AutoModeCanSign | internal/partyb/service.go:150-254 | a whitelisted request that is not rejected has a run through auto mode that signs and stores any bytes fed to it |
| PartyB.EscalationCanSign | internal/partyb/service.go:257-329 | a request that is not rejected has a run in which a press approves it and the signature is stored |
| PartyB.SignsUnseenIff | internal/partyb/service.go:199-213 | a request is signed in some run in which nobody approved it if and only if the analyzer does not reject it and at least one effective recipient is listed |
| PartyB.ClaimSignsUnseenIff | internal/partyb/analyzer/analyzer.go:126-132 | a request whose bytes name no recipient is signed so, with any bytes, if and only if it is not rejected and a recipient that it claims is listed |
| PartyB.UndecodedIsSignedUnseen | internal/partyb/analyzer/analyzer.go:126-132 | one such request: nothing is decoded or compared, and a listed address is claimed |
| PartyB.CreationIsSignedUnseen | internal/vm/evm/evm.go:167-185 | another: everything is decoded and compared, but the bytes have no recipient, as in a contract creation |
| PartyB.HighValueSignsUnseenIff | internal/partyb/service.go:199-213 | the same for a value so high that the rules escalate it |
| PartyB.CanBeSignedIff | internal/partyb/service.go:150-218 | a request is signed in some run if and only if it is untampered, has a recipient, none of them the zero address, a readable value if any, and no language model rejects it, unless a high value has been escalated before |
| PartyB.SignedWasNotRefused | internal/partyb/analyzer/analyzer.go:167-213 | whoever presses, no run enters tss.Sign for a request that the rules reject, or that a language model rejects and no rule has escalated, in the environment the analyzer consulted |
| Protocol.StepKeepsInv | internal/partya/service.go:160-403 | every step of either party and of the network keeps the system invariant: grants are used once, and bytes fed to Party B come from a run of Party A |
| Protocol.Agreement | internal/partya/service.go:296-358 | in every execution, if both parties have entered tss.Sign for a transaction, they did so with the same path and the same bytes, whatever blockhash was injected |
| Protocol.PartyAOnce | internal/partya/service.go:362-403 | no execution starts two signing runs of Party A for one transaction |
| Protocol.ReadySends | internal/partya/service.go:296-330 | the bytes sent with sign-ready are the signable bytes of the transaction with the fresh blockhash injected, or of the transaction itself when none is due |
| Protocol.RunSigns | internal/partya/service.go:296-330 | in every execution a run's bytes are such bytes of the very transaction that its request submitted |
| GivingUp.GivenUpIsNeverSigned | internal/partya/service.go:218-245 | in every execution, once a caller of Sign has given up before its answer was taken, neither party ever enters tss.Sign for its transaction, whatever Party B and the user decide |
| GivingUp.DeletingAbandons | internal/partya/escalation.go:71-75 | a transaction deleted from the queue before the approval arrives is abandoned in the same way |
| Protocol.SignsWhatWasAnalysed | internal/partyb/service.go:348-391 | what Party B signs are the signable bytes, up to a fresh blockhash, of the raw transaction that its own base64 reads from the request; the analysis decoded this raw transaction, or nothing where no adapter was there or could read it; without a blockhash they are the bytes the analyzer recomputed, where it has an adapter |
| Protocol.BothCanSign | internal/partya/service.go:240-358 | such executions exist: for a whitelisted request in auto mode and any blockhash there is one in which both parties enter tss.Sign for the injected bytes with nobody pressing |
| Protocol.BothCanSignEscalated | internal/partya/service.go:258-403 | and for any request that is not rejected there is one through Party A's queue and an approving press |
| SolanaSigning.BothSignTheMessage | internal/partya/service.go:296-345 | over Solana transactions, whenever both parties have entered tss.Sign, it was with the serialization of the submitted message with, at most, another blockhash |
| SolanaSigning.FreshBlockhashIsSigned | internal/vm/solana/solana.go:295-306 | and for every blockhash some execution ends with both signing exactly the message with that blockhash |
| WhitelistOrigin.AutoNamesAKnownRecipient | internal/partyb/service.go:407-435 | in every execution a transaction signed without escalation names somebody that was whitelisted by configuration or belongs to a transaction the user was shown: in its bytes if they name any recipient, else among the claimed ones |
| WhitelistOrigin.PressedRecipientsGetListed | internal/partyb/service.go:407-435 | from any execution in which a transaction is shown, a press leads to one in which any of its recipients is listed and found by the analyzer |
| WhitelistOrigin.StepKeepsOrigin | internal/partyb/service.go:407-435 | every step keeps: each address whitelisted or about to be has such an origin, and no analysis consulted more than is whitelisted |
| EscalationQueue.Queue.Add | internal/partya/escalation.go:33-45 | the queue's contents gain exactly one pending entry under the ID |
| EscalationQueue.Queue.Update | internal/partya/escalation.go:56-68 | exactly one entry changes, in place, and keeps signed bytes it is not given; an unknown ID changes nothing |
| EscalationQueue.Queue.Get | internal/partya/escalation.go:48-53 | returns the very entry filed under the ID, or nothing exactly when there is none |
| EscalationQueue.Queue.Delete | internal/partya/escalation.go:71-75 | removes exactly that entry |
| EscalationQueue.Queue.List | internal/partya/escalation.go:78-86 | lists every entry, and as many as there are |
| EscalationQueue.UpdateReachesHolder | internal/partya/service.go:406-430 | an entry obtained before an update shows its status and signed bytes |
| Framing.WriteMessage | internal/transport/protocol.go:45-66 | writes exactly the frame, header filled in place, or nothing when the payload is too large |
| Framing.FrameLayout | internal/transport/protocol.go:45-66 | a frame is the type, eight big-endian bytes of ID, four of length, and the payload |
| Framing.ReadMessage | internal/transport/protocol.go:68-90 | takes one message off the stream as ReadOne says, or returns its error |
| Framing.PutBigEndian | internal/transport/protocol.go:51-54 | fills exactly k bytes of the header, big-endian, and touches no other |
| Framing.ReadAllOfPrefix | internal/transport/protocol.go:45-90 | a read loop over any prefix of the frames of sent messages returns a prefix of those messages and then an error, and all of them when the stream is whole |
| Framing.OneWriterAtATime | internal/transport/client.go:199-210 | in every interleaving of writers at most one is inside WriteMessage |
| Framing.ReadersSeeLockOrder | internal/transport/server.go:201-215 | in every interleaving, also with writes that fail halfway, any view of the stream reads as a prefix of the messages in lock order, never an invented one |
| Framing.AnyMessageCanFollow | internal/transport/client.go:199-210 | wherever an execution stands with the lock free and the connection whole, any idle writer can send any message, and lock and writer are free again |
| Correlation.RequestsGetTheirOwnReply | internal/transport/client.go:213-237 | in every execution a call that got a reply got one with its own ID that the server made for this very request |
| Correlation.CallCanBeAnswered | internal/transport/client.go:213-237 | wherever an execution stands, a further call can be made and returned with the body the server made for it |
| Correlation.CallCanBeCancelled | internal/transport/client.go:225-237 | a waiting call whose context ends returns without a reply and is unregistered |
| Correlation.ReadLoopNeverBlocks | internal/transport/client.go:143-162 | the read loop can always send on the channel it holds, no channel is sent on twice, and none for ID 0 |
| Correlation.PendingIdsWereDrawn | internal/transport/client.go:213-220 | every pending key is between 1 and the counter |
| Correlation.StepKeepsInv | internal/transport/server.go:160-199 | every step of callers, read loop and server keeps the channel and wire invariants |
| SnakeCase.ToSnakeCase | internal/vm/solana/anchor.go:763-776 | the loop computes Snake (`SnakeCase.SnakeOfCamel` says what that is) |
| SnakeCase.SnakeIsLower | internal/vm/solana/anchor.go:763-776 | snake case has no capitals and is its own snake case |
| SnakeCase.SnakeOfCamel | internal/vm/solana/anchor.go:763-776 | the snake case of a name in camel case has the same words, joined by underscores, for any words |
| AccountResolver.ResolveAccounts | internal/vm/solana/anchor.go:240-307 | on success every account has its key in IDL order, and what was resolved when forms a run: each key and bump is the account's value in the map of that moment (`ResolvedAccounts.RunMeans`), and an account waits behind a later one only while it cannot be resolved; ranks of at most 4 above the presets, with nothing else missing, guarantee success |
| AccountResolver.LogGrows | internal/vm/solana/anchor.go:266-288 | resolving one more account changes no key, time, bump or derivation recorded before: entries are written once |
| ResolvedAccounts.RunMeans | internal/vm/solana/anchor.go:240-347 | in every successful resolution of well-named accounts each has its ephemeral key, or what the first strategy that applies gives in the map of its moment, a PDA the address found for its seeds in order |
| ResolvedAccounts.InputsFinalIff | internal/vm/solana/anchor.go:429-518 | for every successful resolution of well-named accounts and every PDA: its seeds and program are those of the final map if and only if none of them fell back on a well-known program, or on the instruction's own, before an account it names was resolved to another key |
| ResolvedAccounts.RunIsSolution | internal/vm/solana/anchor.go:240-307 | a successful resolution without such overtaking is a solution: every PDA is derived from the final map |
| ResolvedAccounts.ReadyFinalIff | internal/vm/solana/anchor.go:240-347 | for a PDA whose seeds need no account but preset ones, in any successful resolution: seeds and program are those of the final map if and only if no account with a fallback name of it is listed after it with another key |
| ResolvedAccounts.TidyRunIsSolution | internal/vm/solana/anchor.go:240-347 | every successful resolution of an instruction in which no account bearing a fallback name of a PDA is itself a PDA, or comes later with another key, is a solution |
| ResolvedAccounts.RunRanked | internal/vm/solana/anchor.go:240-307 | the order of a resolution ranks every PDA above the accounts its seeds need |
| ResolvedAccounts.SolutionUnique | internal/vm/solana/anchor.go:240-307 | the solution is unique and does not depend on the order in which the accounts are listed |
| ResolvedAccounts.ResolveTwice | internal/vm/solana/anchor.go:240-307 | resolving two listings of the same accounts gives every account the same key |
| AccountResolver.ComputeSeed | internal/vm/solana/anchor.go:441-490 | a seed is a constant, an argument, the mint, or the account of that very name, else of the same snake case, else a well-known program, in this precedence, or the error of its kind |
| AccountResolver.AllSeedsAre | internal/vm/solana/anchor.go:441-490 | the seeds are the bytes of each in the order of the IDL, or the error of the first that has none |
| AccountResolver.DerivePDA | internal/vm/solana/anchor.go:429-518 | the key and bump are what the address search finds for one byte string per seed, in order, and for the instruction's program or the one the IDL names; else the error of the first failing seed |
| AccountResolver.ResolveOneAccount | internal/vm/solana/anchor.go:311-347 | an account's key and bump by the first strategy that applies: fixed address, signer, known program, mint, PDA |
| AccountResolver.FindResolved | internal/vm/solana/anchor.go:453-466 | an account seed finds the entry of its own name, else one of the same snake case, and nothing only when there is neither |
| ResolvedAccounts.ShadowedProgram | internal/vm/solana/anchor.go:454-478 | the resolver accepts a vault seeded by a well-known program and a later signer of that name, and its result is no solution: the vault comes from the program's key |
| Borsh.FillLE | internal/vm/solana/anchor.go:718-724 | the loop fills the buffer with the low bytes of the magnitude; read back, a nonnegative n gives n modulo 256^len |
| Borsh.HexDecodeBytes | internal/vm/solana/anchor.go:726-757 | the loop reads the pairs of hexadecimal digits after an optional 0x, or fails at the first that is none |
| Borsh.HexReadsBack | internal/vm/solana/anchor.go:726-757 | bytes are read back from their numeral in small letters or capitals, with 0x or without, and when a leading zero is missing |
| Borsh.TagsTell | internal/vm/solana/anchor.go:606-614 | an option is tagged absent exactly for the three texts meaning none, and a boolean is 1 exactly for "true" and "1" |
| Decimals.ParseOfShow | internal/vm/solana/anchor.go:627-640 | the decimal reader gives back every integer from its canonical numeral |
| Decimals.PlusAndZero | internal/vm/solana/anchor.go:627-640 | a plus sign or a leading zero changes no numeral's value |
| Borsh.ValueRoundTripIff | internal/vm/solana/anchor.go:601-716 | a serialized argument, followed by anything, decodes to what its text means, consuming nothing more, if and only if the type can hold that value and is not `bytes` |
| Borsh.ArgsRoundTrip | internal/vm/solana/anchor.go:575-599 | decoding the whole buffer recovers every argument in field order and ends exactly at its last byte |
| Borsh.UniquelyDecodable | internal/vm/solana/anchor.go:575-599 | argument lists in range that serialize alike mean the same |
| Borsh.SerializeBorshArgs | internal/vm/solana/anchor.go:575-599 | the output is the serialization of the arguments found by name or snake case, in field order; an error means one is missing or unreadable |
| Borsh.LookupArg | internal/vm/solana/anchor.go:577-592 | finds the argument under its name or the same snake case, and nothing only when there is none |
| Borsh.SignIsDropped | internal/vm/solana/anchor.go:627-660 | -5 and 5 serialize alike as an unsigned byte |
| SolanaSlots.SignExtras | internal/vm/solana/solana.go:239-258 | the nested loops fill a slot exactly if some extra key belongs to it, with a signature by such a key |
| SolanaSlots.FindSlot | internal/vm/solana/solana.go:249-256 | finds the first required slot past the payer's with that account key |
| SolanaSlots.PlaceSignatures | internal/vm/solana/solana.go:220-258 | slot 0 holds the threshold signature, the others are filled by the extra keys, and the errors are exactly those of the code |
| SolanaSlots.AssembleSignedTxWithExtra | internal/vm/solana/solana.go:220-265 | with distinct keys and a key for every required signer, the result carries the same message and every slot verifies over the bytes given to the threshold signer, in any order of the extra keys |
| SolanaSlots.InjectionKeepsAccounts | internal/vm/solana/solana.go:295-306 | injection changes the blockhash and nothing else, so required signers stay covered |
| SolanaSlots.SignWithFreshBlockhash | internal/partya/service.go:296-358 | the whole path after approval: inject, threshold-sign the extracted bytes, assemble; every slot verifies over exactly those bytes |
| Staking.MoveConserves | contracts/evm/contracts/CclawToken.sol:9-20 | a transfer moves exactly the amount, conserves the supply and never wraps |
| Staking.TransferMoves | contracts/evm/contracts/CclawToken.sol:9-20 | a transfer succeeds exactly when neither end is the zero address and the tokens are there, and moves them and nothing else |
| Staking.ApprovalIsUsedUp | contracts/evm/contracts/CclawToken.sol:9-20 | after a finite approval the spender can move exactly up to it and the balance, and the allowance shrinks by what is moved |
| Staking.ApplyKeepsSolvent | contracts/evm/contracts/CclawStaking.sol:20-43 | every transaction not sent by the contract keeps: the contract's tokens cover the sum of all stakes, and balances sum to the supply |
| Staking.StakeAlwaysClaimable | contracts/evm/contracts/CclawStaking.sol:28-34 | after any history any user can claim the whole recorded stake and receives exactly it |
| Staking.StakingConservesWealth | contracts/evm/contracts/CclawStaking.sol:20-43 | deposits and claims change nobody's tokens plus stake, nor the supply |
| Staking.DepositSucceedsIff | contracts/evm/contracts/CclawStaking.sol:20-25 | a deposit succeeds if and only if it is positive and covered by balance and allowance; the checked addition is never what reverts |
| Staking.DepositMoves | contracts/evm/contracts/CclawStaking.sol:20-25 | a deposit turns exactly the amount of the caller's tokens into stake, uses up the allowance unless it is infinite, and touches nobody else |
| Staking.ClaimAmountMoves | contracts/evm/contracts/CclawStaking.sol:37-43 | a partial claim succeeds exactly for a positive amount within the stake, which it turns back into tokens |
| Staking.NobodyTakes | contracts/evm/contracts/CclawStaking.sol:20-43 | over any history of others' transactions, a user who has approved nobody keeps the stake and loses no tokens |
| Staking.OnlyOwnerMints | contracts/evm/contracts/CclawToken.sol:15-18 | over any history in which the owner mints nothing the supply stays the same |
| Staking.MintAdds | contracts/evm/contracts/CclawToken.sol:15-18 | what the owner mints is added to the supply and to the receiver's tokens, up to 2^256 |
| Staking.StakingContract.DepositTokens | contracts/evm/contracts/CclawStaking.sol:20-25 | the method leaves exactly the specified next state, or the old one on a revert |
| Staking.StakingContract.ClaimAll | contracts/evm/contracts/CclawStaking.sol:28-34 | likewise for claim, whose stake is cleared before the transfer |
| Staking.StakingContract.ClaimPart | contracts/evm/contracts/CclawStaking.sol:37-43 | likewise for claimAmount |

## Left out

- Protocol.StepKeepsInv: the services' mutex-guarded maps and goroutines are a transition system on values, not classes, because the claims are about every interleaving; locks appear as atomic steps.
- AccountResolver.ResolveAccounts: covers fixed, signer, known-program, mint and PDA accounts; token-account and `*_authority` heuristics, default seed patterns and stored ephemeral accounts depend on outside state and name guessing, and ATA records are not returned.
- AccountResolver.ResolveOneAccount: those later strategies are the error NoStrategy here.
- ResolvedAccounts.ResolveTwice: a composition of two calls that the source does not make, to state order independence of the results.
- SolanaSlots.SignWithFreshBlockhash: the Solana branch of runTSSSigning with the transport and the threshold protocol reduced to a signing function.
- Borsh.ValueRoundTripIff: defined types come as their fields, so self-referential ones are not modelled; their field names differ up to snake case, so that a second field is always a missing argument.
- Recovery.EdRecoveryAgrees: stated for at least two parties; a lone party holds the unreduced scalar, as `Shamir.ShareReducedIff` says.
- Correlation.StepKeepsInv: the 64-bit message counter does not wrap in the model.
- Framing.ReadersSeeLockOrder: message IDs are below 2^64; a connection that failed halfway accepts no more bytes.
- Deployment.DealDeriveRecoverECDSA: composes the deployment, the parties' derivations and the recovery, which the source runs on different machines.
- Analyzer.Lower: lower-cases ASCII only, where the source lower-cases Unicode.
- SnakeCase.ToSnakeCase: names are ASCII.
- The activeRouter field and the routing of threshold rounds, and the threshold protocols with their Paillier and safe-prime data, which belong to tss-lib.
- Delivery: sign-ready bytes that arrive before the signer registers are ignored, and nothing is claimed about liveness.
- One-time retrieval of signed transactions (GetSignStatus, queryPartyBTxStatus) beyond the queue itself.
- The analyzer's summaries, field warnings and chain names, which do not enter the decision.
- BIP-44 Ethereum export, bech32 and EIP-55 addresses, RLP, protobuf and ABI encodings.
- HTTP handlers, the Telegram API, PostgreSQL plumbing, TLS, SSH and Docker deployment, shell scripts and the web interface.
