# go-adpwsh: a model of its protocols and algorithms

go-adpwsh drives Active Directory through PowerShell: an operation becomes a script,
a transport carries it to a host, and an envelope comes back. Directory writes are not
idempotent, so the library's hard part is to retry without ever issuing a script that
may already have taken effect, while a pool of warm shells is opened, reused, reaped,
rebuilt and closed concurrently. Around that sit a stream re-framer, a schema resolver,
a fake directory with an LDAP filter evaluator, and planners that turn a wanted state
into ordered cmdlets.

`dafny verify dfyconfig.toml` verifies the whole project (Dafny 4.11).

## How it is organised

- `PoolSteps`, `Protocol`, `ProtocolShells`, `ProtocolOps`, `ProtocolTheorems`,
  `ProtocolRun`, `ProtocolSweep`: the warm pool and the retry loop as a step system. Any
  number of operations, one reaper and one Close are interleaved step by step; what
  executors, clocks and contexts do is carried by events, so a statement about every
  reachable state covers every interleaving and every outcome. `WarmPool` and `CoreExec`
  are the same code as it is written, objects and loops, each method tied to the step
  functions the protocol interleaves.
- `Runspace`, `ColdShell`: the two transports whose error detection the retry policy
  trusts, and why they deserve it.
- `Failover`, `FailoverPool`: endpoint order, negative cache, binding, and the rotation
  counter; and that pooled failover executors are bound whenever they execute.
- `Framer`, `FramerReader`: the packet splitter and the reader on top of it.
- `Schema`, `SchemaResolve`, `SchemaMeaning`: the inheritance closure, the resolved classes,
  and what they are in terms of the fetched lists.
- `Filter`, `Wildcard`, `FilterMeaning`: the filter evaluator, its wildcard matcher, and
  the abstract syntax the text stands for.
- `Members`: group membership and the recursive read.
- `OUUpdate`, `FakeUpdate`: the OU planner, the script that executes its payload, and
  the fake directory's handler.
- `AttrOps`, `AttrOrder`: attribute operations, their conflicts and their order.
- `EncodeCommand`: the UTF-16 and base64 form of a script.
- `Common`, `Search`, `Strings`: options and results, substring search, string order.

Go functions that loop or update objects are methods or classes here, with a contract
stating their result or naming a specification function; the properties are lemmas about
that function. Strings are sequences of characters and integers are unbounded; the one
place where width matters, the 64-bit rotation counter, is modelled with its wrap.

## What the code does that its documentation does not say

All but the last are proved, with the exact condition.

- Equality filters: the evaluator unescapes a value before it looks for `*`, so a literal
  star written `\2a` still matches as a wildcard. Equality means equality exactly when
  the value has no star (`FilterMeaning.StarLiteralExact`), and likewise for the pieces of
  a substring filter (`FilterMeaning.StarPiecesExact`).
- Framing: a carried-over tag other than Data that has outgrown the 256-byte window, or in
  which a second tag opens, blocks the stream for good; nothing after it is ever
  delivered. The blocked tags are characterised exactly (`Framer.WedgedIff`), and "<a<" is
  one (`Framer.BlockedExample`).
- Round robin: the counter is reduced modulo the number of endpoints after wrapping at
  2^64, so a round that crosses the wrap is unfair unless the number divides 2^64
  (`Failover.RoundFairIff`, `Failover.UnfairRound`).
- OU update by distinguished name: the script gives every cmdlet the identity it was called
  with, so after its own rename or move it no longer finds the object. Such an update is
  executed to its end exactly when the name is not to change (`OUUpdate.PlanExecutesIff`),
  and updating again does not help (`OUUpdate.RecoveryIff`). Moving a protected unit by
  its name always leaves it unprotected (`OUUpdate.MovedByNameIsExposed`,
  `OUUpdate.ExposedByName`). The fake directory looks the object up once and does not show
  this (`FakeUpdate.FakeAgreesIff`).
- OU update: an update of a protected OU that is cut short leaves it unprotected exactly
  when it stops after lifting the flag and before restoring it (`OUUpdate.ExposedWindow`,
  `OUUpdate.ExposedAtMove`). If the spec does not mention the protection, updating again
  does not restore it (`OUUpdate.RecoveryIff`).
- Retrying an OU update: a transient error of the script's last read makes the loop issue
  the whole script again. That does no harm to the object, but moving an unprotected unit
  with protection asked for is then reported as refused (`OUUpdate.ReissueOfPlanIff`,
  `OUUpdate.ReissueRefused`).
- psrun: the error of a pipeline that ended abnormally is formatted as text. A caller's
  timeout costs the pool its shell exactly when it surfaces that way
  (`Runspace.TimeoutCostsShellIff`, `Runspace.TimeoutExample`); whether waiting for a
  pipeline ever reports the caller's context is up to go-psrpcore.
- Fake directory: the container read back from a distinguished name is the one it was
  built with exactly when the first component has no open comma and does not end in a
  backslash (`FakeUpdate.ParentExact`, `FakeUpdate.BackslashName`).
- Retry loop: allowed less than one attempt the loop itself would report success without
  executing anything (`ProtocolTheorems.RetriesAreBounded`, `CoreExec.Exec`). New passes
  the configured number through defaults that are not part of this model.
- `conn.invalidate` and the reaper both close the executor they replace, as conn.go does;
  the comments in reap.go that say invalidate never closes it are out of date.

## Model

| member | source | states |
|---|---|---|
| ProtocolTheorems.AtMostOnce | core.go:69-97 | For a classifier that never calls a delivered failure transient or dead, in every reachable state of every interleaving no operation has executed anything after an execution that may have taken effect, a transient refusal by the directory being taken for one that had none (see below). |
| ProtocolTheorems.AtMostOnceIff | internal/warm/warm.go:159-208 | The classifier conditions are exact: all runs are safe if and only if no delivered failure is confirmed dead (with an attempt allowed) or transient (with two); each violation has an explicit run that applies a script twice. |
| ProtocolTheorems.DeadShellWitness | internal/warm/warm.go:188-208 | A delivered failure taken for a dead shell yields a reachable state in which the script was issued again. |
| ProtocolTheorems.TransientWitness | core.go:87-94 | A delivered failure taken for transient yields a reachable state in which a second attempt issued the script again. |
| ProtocolTheorems.RetriesAreBounded | core.go:70-97 | For any classifier: at most two executions an attempt, every execution but the last ended transient or in a confirmed dead shell, and success is reported only after an execution that succeeded. |
| ProtocolTheorems.LiveIffKept | internal/warm/conn.go:28-83 | In every reachable state an executor is connected and not closed iff exactly one undrained connection that is up keeps it. |
| ProtocolTheorems.NothingLiveAfterClose | internal/warm/warm.go:216-246 | Once Close is done no executor is live, even with Runs in flight while it ran. |
| ProtocolTheorems.ExecutesOnlyLive | internal/warm/warm.go:156-159 | Execute is only called on an executor whose Connect succeeded and that nobody closed since. |
| FailoverPool.BoundOnceLive | transport/winrm/failover.go:180-182 | After any events, a live failover executor is bound to an endpoint. |
| FailoverPool.NeverUnbound | transport/winrm/failover.go:195-197 | Whenever a Run is about to execute, the failover executor of its connection is bound: Execute never meets a nil endpoint. |
| FailoverPool.ComesAlive | internal/warm/conn.go:28-39 | An executor becomes live only by a successful Connect on it. |
| ProtocolTheorems.ExactlyOnePlace | internal/warm/warm.go:95-106 | Each connection is in exactly one of the idle channel, one Run, the reaper and the drained set; no two operations hold the same one. |
| ProtocolTheorems.HoldersCanMove | internal/warm/warm.go:126-140 | Sending a connection back never blocks, for a Run or the reaper, and whoever holds one can take its next step whatever the world answers. |
| ProtocolTheorems.DrainGoesOn | internal/warm/warm.go:230-244 | With the reaper gone and no Run holding a connection, the drain can receive the next one or is complete. |
| ProtocolTheorems.CloseWaitsOnlyForRuns | internal/warm/warm.go:216-246 | Close can be called whatever else is going on; from then until it returns, if no Run holds a connection, Close or the reaper can take a step. |
| ProtocolTheorems.CloseDrainsAll | internal/warm/warm.go:218-244 | Nothing is drained before the reaper has exited, and a finished Close has drained every connection exactly once. |
| ProtocolRun.RunIsAnInterleaving | internal/warm/warm.go:124-209 | Checkout, Run and return of one operation, undisturbed, are a run of the protocol that ends where Pool.Run's contract says. |
| ProtocolRun.AttemptIsAnInterleaving | core.go:69-97 | One whole attempt, undisturbed, with its judgement and wait: the caller gets the directory's own kind, unless it is transient and an attempt is left. |
| ProtocolRun.GivingUp | internal/warm/warm.go:137-143 | A caller whose context ends while it waits for a connection gets a transient error, retried like any other; nothing has been executed and no connection is touched. |
| ProtocolSweep.SweepIsAnInterleaving | internal/warm/reap.go:77-91 | A tick, one turn for each idle connection and a last look are a run of the protocol that ends with the channel in the same order: every idle connection up and unused for reapAfter is down and its old executor not live, every other connection and its executor are as they were. |
| ProtocolSweep.OneTurn | internal/warm/reap.go:110-143 | One turn takes the first idle connection, reaps it as specified and sends it to the back. |
| ProtocolSweep.CloseIsAnInterleaving | internal/warm/warm.go:216-246 | With the reaper resting and every connection idle: the stop, the reaper's exit and one receive for each connection are a run of the protocol that ends closed, every connection drained once in the order of the channel, the connections as they were and no executor live. |
| ProtocolRun.ActsToReturn | internal/warm/warm.go:145-208 | From any point of a Run, the operation's own steps take the protocol to that Run's return. |
| ProtocolRun.OperationsEnd | core.go:69-97 | No operation retries for ever: a bound on its remaining steps drops with each of its own and never grows. |
| ProtocolRun.ClosingProgress | internal/warm/warm.go:216-246 | A bound on what Close and the reaper still have to do drops with each of their steps but a tick, and no operation's step raises it. |
| ProtocolRun.CloseEnds | internal/warm/warm.go:216-246 | The bound is zero iff Close is done; once Close is called and no Run holds a connection, a step that lowers it is enabled. |
| Protocol.StepConserves | internal/warm/reap.go:77-91 | No step of a Run, the reaper or Close loses, duplicates or invents a connection. |
| Protocol.ReachableNext | internal/warm/warm.go:124-209 | Reachability is closed under every enabled step. |
| ProtocolShells.HeldAlone | internal/warm/warm.go:125-143 | A connection a Run holds is absent from the channel, the reaper, the drained set and every other Run. |
| ProtocolShells.InHandAlone | internal/warm/reap.go:77-91 | So is the one the reaper holds. |
| ProtocolShells.IdleAlone | internal/warm/warm.go:230-231 | The next connection in the channel occurs there once and is held by nobody. |
| ProtocolShells.SendNeverBlocks | internal/warm/warm.go:97 | While anyone holds a connection the channel has room. |
| ProtocolShells.StepKeepsAllShells | internal/warm/conn.go:28-83 | Every step keeps live executors and up connections in one-to-one correspondence and leaves every executing Run on a connection that is up. |
| ProtocolShells.RelinkKeeps | internal/warm/conn.go:68-83 | The owner of a connection can replace its executor without disturbing any other. |
| ProtocolOps.StepKeepsOps | core.go:70-97 | Every step keeps, for each operation, the bound on executions and the reasons for reissuing. |
| ProtocolOps.RunStepKeepsOp | internal/warm/warm.go:145-208 | So does every step within a Run. |
| ProtocolOps.StepOrdered | internal/warm/warm.go:218-230 | Every step keeps the order stop, reaper exit, drain, done. |
| ProtocolOps.ReachableInv | internal/warm/warm.go:112-248 | Conservation, shell correspondence, retry discipline and closing order hold together in every reachable state. |
| PoolSteps.RunMeans | internal/warm/warm.go:145-208 | What one Run comes to, case by case: how often it executes, what it returns, and whether the connection is kept, down or rebuilt. |
| PoolSteps.TriageMeans | internal/warm/warm.go:156-208 | On a connection that comes up, answer by answer: what is returned, how often was executed, whether the connection is up and with which executor, for replies, transient, caller's, suspect and dead-shell failures. |
| PoolSteps.RetryMeans | internal/warm/warm.go:182-208 | After a suspect failure the connection is rebuilt in any case; the script is reissued at most once, only on a confirmed dead shell and a successful redial, and that outcome is final. |
| PoolSteps.RunKeeps | internal/warm/warm.go:145-208 | A whole Run leaves the connection in step with its shell and touches no other executor. |
| PoolSteps.StepKeepsShells | internal/warm/conn.go:28-83 | So does each of its steps, and Execute only happens on a connection that is up. |
| PoolSteps.ReapKeepsShells | internal/warm/reap.go:110-143 | Reaping takes exactly the stale connections down, releases their shell and only theirs, and leaves fresh ones as they were. |
| WarmPool.PooledConn.EnsureConnected | internal/warm/conn.go:28-39 | The in-place update is the atomic connect step; it succeeds iff the connection ends up. |
| WarmPool.PooledConn.Invalidate | internal/warm/conn.go:68-83 | The in-place update is the atomic invalidate step, with and without a successful rebuild. |
| WarmPool.PooledConn.ReapIfIdle | internal/warm/reap.go:110-143 | The in-place update is the atomic reap step. |
| WarmPool.Pool.New | internal/warm/warm.go:70-108 | Succeeds iff every parameter is in range and every build succeeds, and then yields exactly the protocol's initial connections and shells: none up, numbered in order. |
| WarmPool.Pool.RunOnce | internal/warm/warm.go:112-121 | Connects, then executes once; the outcome is the mapped answer, or a transport error if it could not connect. |
| WarmPool.Pool.RunOn | internal/warm/warm.go:145-208 | The triage with its early returns refines the step machine: same outcome, same executions, same connection and shells. |
| WarmPool.Pool.Run | internal/warm/warm.go:124-209 | Checkout, the Run, the stamp and the return: the connection goes to the back of the channel as the step machine left it; without one the outcome is transient and nothing changes. |
| WarmPool.Pool.ReapIdle | internal/warm/reap.go:77-91 | A sweep keeps the order of the channel and leaves each connection and the shells as the specified sweep does. |
| WarmPool.SweptMeans | internal/warm/reap.go:77-143 | That sweep takes exactly the stale connections down and closes exactly their executors. |
| WarmPool.Pool.DrainAll | internal/warm/warm.go:230-246 | The channel ends empty, the executors of the up connections are closed, and the first error is reported. |
| WarmPool.Pool.Close | internal/warm/warm.go:216-248 | The first call drains; every later call returns the first one's result and changes nothing. |
| WarmPool.LiveAfterMeans | internal/warm/warm.go:230-246 | A drain leaves live exactly what no up connection kept. |
| WarmPool.CloseLeavesNone | internal/warm/warm.go:211-215 | If idle connections keep every live shell, a drain leaves none. |
| CoreExec.Exec | core.go:69-97 | The loop goes on exactly while attempts are transient, some are left and the wait is not cut short; the verdict is the last attempt's: none for a readable success, the directory's kind for a refusal, transport for an unreadable reply or a wait cut short. |
| CoreExec.SucceedsIff | core.go:73-90 | A call succeeds iff its last attempt ran to a readable success, and reports a transient error only when attempts are used up. |
| Runspace.Executor.Connect | internal/psrun/psrun.go:107-122 | A failed Connect leaves no stream open and binds nothing; the opener's error is passed on and the runspace's is marked pre-send. |
| Runspace.Executor.Execute | internal/psrun/psrun.go:136-198 | The outcome is the script's own reply; an error's chain carries the pre-send mark iff the script was not handed over, or the cause of a failed Invoke brought the mark along. |
| Runspace.Executor.Close | internal/psrun/psrun.go:204-215 | Releases the executor's stream and only that. |
| Runspace.DeadIff | internal/psrun/psrun.go:66-81 | From the errors Execute returns: the pool takes a failure for a dead shell iff nothing was sent and the caller did not give up, or a failed Invoke's cause was marked already. |
| Runspace.FoundAtAnyDepth | internal/psrun/psrun.go:76-81 | The mark, and the caller's context, are found at any depth of wrapping, and only if they are there. |
| Runspace.AlwaysTransport | internal/psrun/psrun.go:66-74 | Whatever failure arises, its kind is transport, which the loop never retries. |
| Runspace.AbnormalIsSuspect | internal/psrun/psrun.go:188-194 | A pipeline that ended abnormally costs the pool its shell, whatever the cause, and is never reissued. |
| Runspace.TimeoutCostsShellIff | internal/warm/conn.go:85-93 | Among the failures the caller's own context caused, those that cost the pool its shell are exactly the abnormal ends of a pipeline. |
| Runspace.TimeoutExample | internal/psrun/psrun.go:188-194 | A concrete pair: a timeout while the script is sent leaves the shell alone, one while it runs does not. |
| Runspace.RunspaceIsSound | internal/psrun/psrun.go:66-81 | The classifier, looking only at errors, meets what the retry policy needs iff no failed Invoke has a marked cause. |
| Runspace.RunspacePoolAtMostOnce | internal/psrun/psrun.go:136-198 | Over runspace executors a pool never applies an operation and issues it again, in any reachable state, iff no failed Invoke has a marked cause. |
| ColdShell.Executor.Exec | transport/winrm/coldexec.go:206-240 | A script that exits gives its own reply; the shell is closed on every way out, and an error is transient iff the end of standard input was never attempted. |
| ColdShell.ColdTransport.Run | transport/winrm/cold.go:74-88 | The concurrency slot is given back on every way out; a retryable outcome means the operation cannot have taken effect. |
| ColdShell.RetriedIff | transport/winrm/coldexec.go:206-240 | The loop goes on after a Run iff the operation cannot have taken effect and there were a slot and a script; without those it stops though nothing ran. |
| ColdShell.Call | core.go:69-97 | Over the cold transport's Runs no attempt but the last can have taken effect, success means the last one ran to a success, a refusal carries the directory's kind, and a transient verdict means all attempts were used. |
| Failover.FailoverExecutor.OrderedEndpoints | transport/winrm/failover.go:128-140 | Round robin puts at place i the endpoint at (counter + i) modulo their number, by the counter's old value, and advances the counter by one modulo 2^64; otherwise the list and the counter are unchanged. |
| Failover.FailoverExecutor.Select | transport/winrm/failover.go:147-156 | The candidates are the endpoints not cooling down, in order, or all of them if every one is. |
| Failover.CandidatesInOrder | transport/winrm/failover.go:147-156 | The candidates stand at strictly increasing places of the ordered list, exactly those not cooling down, or all if every one is; the first of them is the first endpoint not cooling down. |
| Failover.FailoverExecutor.Probe | transport/winrm/failover.go:158-192 | Binds the first candidate that connects, closes every earlier one it built, and marks or clears hosts accordingly; on failure every candidate was tried. |
| Failover.FailoverExecutor.Connect | transport/winrm/failover.go:142-193 | Succeeds iff some candidate connects and binds the first such in rotated-then-filtered order; with nothing cooling down that is the first endpoint of the ordered list that connects; on failure the binding is unchanged and the error names every candidate. |
| Failover.NegativeCache.IsDown | transport/winrm/failover.go:52-61 | A host is down iff its recorded time lies ahead. |
| Failover.NegativeCache.MarkDown | transport/winrm/failover.go:63-71 | Records the cooldown of one host and nothing else. |
| Failover.NegativeCache.Clear | transport/winrm/failover.go:73-80 | Forgets one host and nothing else. |
| Failover.CooldownWindow | transport/winrm/failover.go:52-80 | A host marked at some time is down for exactly the cooldown from then on; a cleared one is not. |
| Failover.RotatedPermutes | transport/winrm/failover.go:128-140 | A rotation has the same endpoints, each as often. |
| Failover.RotatedAt | transport/winrm/failover.go:134-139 | Behind its start a rotation goes on to the end and then from the beginning. |
| Failover.AwakeAre | transport/winrm/failover.go:147-153 | The filter keeps every endpoint that is not cooling down and nothing that is not in the list. |
| Failover.AlwaysACandidate | transport/winrm/failover.go:143-156 | A non-empty list always yields a candidate, and an endpoint is passed over only while it cools down and another is tried. |
| Failover.CacheRecords | transport/winrm/failover.go:52-80 | With distinct candidates every failed one cools down from its own failure and no other host is touched. |
| Failover.CandidatesDistinct | transport/winrm/failover.go:147-156 | Distinct configured hosts stay distinct through rotation and filter. |
| Failover.ConnectRecords | transport/winrm/failover.go:142-193 | For distinct configured hosts: after a Connect each failed candidate cools down from its own failure, the bound host does not, and no other host is touched. |
| Failover.BudgetShares | transport/winrm/failover.go:211-228 | With several candidates each window lies between floor and ceiling, and together they overrun the operation's time iff it is too short for the floor. |
| Failover.BudgetIs | transport/winrm/failover.go:211-228 | One candidate has the whole time; several have equal shares, but none more than fifteen seconds or less than five. |
| Failover.FairIff | transport/winrm/failover.go:134-139 | Any n consecutive counter values start at n different indices iff they do not cross the counter's wrap or n divides the modulus. |
| Failover.RoundFairIff | transport/winrm/failover.go:128-140 | A round of as many successive Connects as there are distinct endpoints tries a different one first each time, iff it does not cross the wrap or the number divides 2^64. |
| Failover.SuccessiveAt | transport/winrm/failover.go:134-139 | The k-th of successive Connects reads the first one's counter plus k, wrapped. |
| Failover.UnfairRound | transport/winrm/failover.go:134-139 | A concrete unfair round: three endpoints with the counter at its last value. |
| Failover.CounterAfter | transport/winrm/failover.go:134-139 | The counter after k connects is what FairIff assumes. |
| Framer.SplitOutOfProcPackets | internal/oop/framer.go:56-100 | The index loop returns exactly the specified packets, each with a newline, and the specified rest. |
| Framer.DataIsEmitted | internal/oop/framer.go:66-75 | Text that begins "<Data " or "<Data>" and first closes with "</Data>" at its end is one packet with nothing left, and with any text behind it the first packet, the split going on behind it. |
| Framer.SelfClosingIsEmitted | internal/oop/framer.go:76-97 | So is any other tag of at most 256 bytes that closes itself and has no tag inside. |
| Framer.TooLongIsStuck | internal/oop/framer.go:76-83 | Such a tag of more than 256 bytes emits nothing, whatever follows. |
| Framer.ChunkingIndependence | internal/oop/framer.go:56-100 | Splitting is a homomorphism: for all a and b, splitting a, carrying its rest over and splitting that with b gives what splitting a + b gives. |
| Framer.EmitsWellFormed | internal/oop/framer.go:66-97 | Only Data elements and short self-closing tags without an inner opener are ever emitted. |
| Framer.CutIsWellFormed | internal/oop/framer.go:66-97 | The tag cut at an opener is such a packet. |
| Framer.RoundTrip | internal/oop/framer.go:56-100 | A stream of well-formed packets with opener-free junk between them is split into exactly those packets, in order. |
| Framer.Idempotent | internal/oop/framer.go:56-100 | Framing what is already framed changes nothing, for every input. |
| Framer.WedgedIff | internal/oop/framer.go:66-97 | No continuation of the stream yields another packet iff the carried tag is blocked. |
| Framer.BlockedForGood | internal/oop/framer.go:76-97 | A blocked tag is never completed, whatever follows. |
| Framer.BlockedExample | internal/oop/framer.go:76-97 | A concrete one: behind "<a<" nothing is ever delivered. |
| Framer.Completes | internal/oop/framer.go:66-97 | Any other carried tag has a continuation that completes it. |
| FramerReader.Reader.Read | internal/oop/framer.go:23-52 | The loop returns what the specified read returns and leaves its state. |
| FramerReader.StepKeeps | internal/oop/framer.go:23-52 | One Read hands on at most the buffer's size, keeps delivered plus buffered bytes equal to the framing of what was received, and neither loses nor invents an error. |
| FramerReader.HandsOnAll | internal/oop/framer.go:23-52 | A Read without an error fills the caller's room or empties the buffer, and hands on nothing only where the source gave neither data nor error. |
| FramerReader.EverythingArrives | internal/oop/framer.go:23-52 | Enough Reads with room for a byte deliver the framing of the whole stream and every error of the source, whatever the chunks. |
| FramerReader.DeliversPrefix | internal/oop/framer.go:23-52 | Any Reads of any sizes over any chunking deliver a prefix of the framing of the whole stream, and the chunks' errors in order. |
| FramerReader.ErrorComesLast | internal/oop/framer.go:36-50 | An error is returned only once every packet framed from the chunks taken so far has been handed on. |
| FramerReader.ChunkingInvisible | internal/oop/framer.go:23-52 | Two readers of one byte stream, however chunked and read, have delivered the same bytes once drained. |
| Schema.Closure | internal/adschema/resolve.go:125-178 | Terminates on every graph; the result joins exactly the listings of the reachable classes at their true distances; fails iff a reachable class names something absent, and complains about such a name. |
| Schema.Contributions.Record | internal/adschema/resolve.go:194-206 | Recording a listing joins it: least (distance, class name) is credited and mandatory wins. |
| Schema.RecordGroup | internal/adschema/resolve.go:144-154 | One list is joined in full, or the first absent attribute is named. |
| Schema.RecordClass | internal/adschema/resolve.go:135-155 | The four lists of a class likewise. |
| Schema.WalkNext | internal/adschema/resolve.go:157-176 | Walking a class's references keeps the wave front: every class queued is at its true distance and none is queued twice. |
| Schema.JoinUnique | internal/adschema/resolve.go:180-206 | The join of a set of listings is unique, so the order and number of recordings do not matter. |
| Schema.DistanceUnique | internal/adschema/resolve.go:111-124 | A class has one distance. |
| SchemaMeaning.SuccessorsAre | internal/adschema/resolve.go:157-162 | A class refers to exactly its parent and its auxiliaries of both kinds, by folded name. |
| SchemaMeaning.DistanceIs | internal/adschema/resolve.go:162-176 | A class's distance is the length of a shortest path of references. |
| SchemaMeaning.FailsIff | internal/adschema/resolve.go:144-176 | A closure fails iff some path of references leads to a class that names an attribute or class not fetched. |
| SchemaMeaning.ClosureMeans | internal/adschema/resolve.go:125-206 | In terms of the fetched lists: an attribute is present iff a class at the end of a path lists it, mandatory iff one demands it, and credited to the nearest, the least name among equals. |
| SchemaMeaning.ResolvedMeans | internal/adschema/resolve.go:28-64 | The same of the resolved class, its optional attributes being the rest; it is structural iff its category is 1. |
| SchemaMeaning.AuxiliariesCount | internal/adschema/resolve.go:157-176 | A class named in either auxiliary list passes its attributes and its demands on, and fails the class that names it if it was not fetched. |
| Strings.LessMeans | internal/adschema/resolve.go:203-205 | Names are compared lexicographically. |
| Strings.FoldMeans | internal/adschema/resolve.go:103 | Folding lowers A to Z and nothing else. |
| SchemaResolve.NewIndex | internal/adschema/resolve.go:89-101 | The index maps folded names to canonical entries, later ones winning. |
| SchemaResolve.Render | internal/adschema/resolve.go:42-62 | Mandatory and optional list, sorted, exactly the attributes so marked, and via names the credited class of each. |
| SchemaResolve.Resolve | internal/adschema/resolve.go:28-64 | Returns exactly the wanted classes, each resolved; fails iff one is unknown or its closure fails. |
| SchemaResolve.ResolvedUnique | internal/adschema/resolve.go:28-64 | A class of a schema has one resolution. |
| SchemaResolve.SplitsVia | internal/adschema/resolve.go:46-60 | Mandatory and optional are sorted, disjoint and together the keys of via. |
| SchemaResolve.ListingOrderIrrelevant | internal/adschema/resolve.go:28-64 | With unique folded names, rearranging the fetch at any level changes neither what a class resolves to nor whether it fails. |
| SchemaResolve.Inherits | internal/adschema/resolve.go:158-178 | A class has every attribute of its parents and auxiliaries, and what is mandatory there is mandatory here. |
| SchemaResolve.ParentsResolve | internal/adschema/resolve.go:158-178 | If a class's closure does not fail, neither does that of any parent or auxiliary. |
| Wildcard.MatchWildcard | transport/fake/filter.go:106-127 | With a star the greedy matcher returns true iff the value matches the pattern's declarative meaning; without one it tests prefix and suffix. |
| Wildcard.LeftmostSuffices | transport/fake/filter.go:110-122 | The exchange argument: if any occurrence of a segment leads to a match, the leftmost does. |
| Wildcard.SplitStars | transport/fake/filter.go:108 | Splitting at stars gives star-free segments that join back to the pattern. |
| Filter.UnescapeFilterValue | transport/fake/filter.go:159-176 | The index loop decodes exactly the hex escapes. |
| Filter.FromHexIs | transport/fake/filter.go:178-189 | Hex digits of either case, and nothing else. |
| Filter.UnescapeInverts | transport/fake/filter.go:159-176 | Unescaping undoes the escaping of section 3 of RFC 4515 for every text. |
| Filter.SplitFilters | transport/fake/filter.go:53-77 | The depth-counting loop returns the specified parts or the specified error, and never slices before an opening. |
| Filter.Item | transport/fake/filter.go:81-102 | One assertion: errors, presence, equality and wildcard, as specified. |
| Filter.Match | transport/fake/filter.go:14-49 | The recursive descent terminates on every text and returns the specified value or error, short-circuits included. |
| Filter.SpaceIgnored | transport/fake/filter.go:14-22 | White space around a filter does not matter. |
| Filter.BareTextRefused | transport/fake/filter.go:14-19 | Text that does not begin and end with a parenthesis is malformed. |
| Filter.OtherAssertionsRefused | transport/fake/filter.go:81-89 | Assertions with another operator than equality, or without an attribute, are refused whatever the object. |
| FilterMeaning.SplitInverts | transport/fake/filter.go:53-77 | Splitting undoes the concatenation of balanced parts. |
| FilterMeaning.SplitOkIff | transport/fake/filter.go:53-77 | Splitting succeeds iff the parentheses close, none too early. |
| FilterMeaning.PartsMean | transport/fake/filter.go:23-40 | Short-circuit evaluation gives the conjunction or disjunction of the parts. |
| FilterMeaning.FilterMeansAst | transport/fake/filter.go:14-102 | For every valid filter tree, evaluating its printed text gives the tree's meaning, with no error. |
| FilterMeaning.StarLiteralExact | transport/fake/filter.go:90-101 | An equality filter means equality for every object iff its value has no star. |
| FilterMeaning.SpreadIsGlob | transport/fake/filter.go:106-127 | For star-free pieces, lying in order and apart within a text is matching the pattern with a star between each two. |
| FilterMeaning.StarPiecesExact | transport/fake/filter.go:90-101 | A substring filter means its pieces for every object iff none has a star. |
| Members.Walk.Visit | transport/fake/directory.go:776-799 | The depth-first walk terminates on cyclic graphs; everything it adds is reachable and everything a visited group leads to is visited. |
| Members.MembersReadRecursive | transport/fake/directory.go:768-814 | Returns exactly the live non-groups reachable through live groups, each once, in strictly increasing GUID order. |
| Members.LeafIs | transport/fake/directory.go:768-814 | Of the objects themselves: a leaf is an undeleted non-group at the end of a chain of memberships through undeleted groups. |
| Members.Directory.MembersAdd | transport/fake/directory.go:699-717 | Adds the resolved identities to the group's sorted members iff all resolve; otherwise changes nothing. |
| Members.Directory.MembersRemove | transport/fake/directory.go:719-739 | Removes them likewise. |
| Strings.SortedKeys | transport/fake/directory.go:834-841 | The keys of a map in strictly increasing order, whatever order they arrive in. |
| Members.RemoveUndoesAdd | transport/fake/directory.go:699-739 | Removing what was just added gives back the members there were, if none was one already. |
| Members.AddedIsLeaf | transport/fake/directory.go:699-814 | A principal added to a group is a leaf of that group and of every group that reaches it, and no leaf is lost. |
| OUUpdate.Plan | ou.go:143-190 | The payload's writes never move a protected object and end in the wanted state, unnamed fields unchanged; name, container and protection are written only when they have to change; it is empty iff the object meets a spec without a description; fails iff a container does not parse. |
| OUUpdate.PlanExecutesIff | ou.go:143-190 | With nothing else refused, a planned payload is executed to its end and read back iff the identity is a GUID or the distinguished name is not to change. |
| OUUpdate.ByNameLeaves | internal/adscript/ops/ou_update.ps1:1-16 | What a distinguished name that is to change leaves: after a rename nothing more is done, after a move alone only the protection is not written; a failure is reported and the name leads nowhere. |
| OUUpdate.MovedByNameIsExposed | internal/adscript/ops/ou_update.ps1:3-15 | Moving an object by its distinguished name always leaves it moved, unprotected and reported as failed. |
| OUUpdate.ExposedByName | internal/adscript/ops/ou_update.ps1:3-15 | A concrete one: a protected unit, its name unchanged. |
| OUUpdate.StableRuns | alias.go:118-120 | With a GUID and nothing refused, the script does exactly the payload's writes. |
| OUUpdate.Stored.Cmdlet | internal/adscript/ops/ou_update.ps1:1-16 | A cmdlet fails iff its identity does not lead to the object, the directory refuses it, or it would move a protected object; then it changes nothing. |
| OUUpdate.Stored.Writes | internal/adscript/ops/ou_update.ps1:1-15 | Whatever is refused, the object is left exactly by the guarded writes before it. |
| OUUpdate.Stored.Script | internal/adscript/ops/ou_update.ps1:1-16 | Succeeds iff no write fails and the last read finds the object and succeeds; otherwise the writes before the failure stay done. |
| OUUpdate.Update | ou.go:126-201 | Fails with nothing changed when the object is not found or a container does not parse; otherwise leaves exactly the plan's writes before the failing one; success means the wanted state, and with nothing refused comes iff the identity is a GUID or the distinguished name is not to change. |
| OUUpdate.Idempotent | ou.go:126-201 | Realising a spec twice leaves what realising it once leaves. |
| OUUpdate.UpdateIdempotent | ou.go:126-201 | Calling Update twice leaves what calling it once leaves, whatever the identity. |
| OUUpdate.ExposedWindow | internal/adscript/ops/ou_update.ps1:3-15 | A protected object that is to stay so is unprotected exactly when execution stops between lifting and restoring the flag. |
| OUUpdate.ExposedAtMove | internal/adscript/ops/ou_update.ps1:3-15 | A concrete one: the move is refused after the flag was lifted. |
| OUUpdate.RecoveryIff | ou.go:126-201 | Updating again after a failure succeeds iff the identity is a GUID or the distinguished name is not to change; it then meets the spec, and keeps what the spec leaves alone iff the failure was not in the exposed window with a protection the spec does not mention. |
| OUUpdate.ReissueIff | core.go:87-94 | Issuing the script again after any number of the writes it made leaves the same object, and the same verdict unless everything was done and what it did was move an unprotected object and protect it, the identity still leading there. |
| OUUpdate.ReissueOfPlanIff | ou.go:159-187 | The same for planned payloads, as a condition on the call: only with a GUID can the verdict differ. |
| OUUpdate.ReissueRefused | core.go:87-94 | A concrete one: the second issue is refused although the object is as wanted. |
| FakeUpdate.FakeObject.HandleUpdate | transport/fake/directory.go:473-507 | Name, description, protection and refusal are those of the payload's writes, half-done updates included; a non-empty container is too, iff the name was not built anew or sets itself apart. |
| FakeUpdate.FakeAgreesIff | transport/fake/directory.go:474-477 | Those writes are what the script comes to, for a planned payload, iff the identity is a GUID or the distinguished name is not to change. |
| FakeUpdate.Rebuilt | transport/fake/directory.go:223-225 | A built name gives its container back iff its first component sets itself apart. |
| FakeUpdate.BackslashName | transport/fake/directory.go:643-650 | A concrete loss: behind a name that ends in an escaped backslash the container's own container is read back. |
| FakeUpdate.ParentOf | transport/fake/directory.go:643-650 | Returns what follows the first open comma. |
| FakeUpdate.ParentExact | transport/fake/directory.go:223-225 | The container is read back from a built name iff its first component has no open comma and does not end in a backslash. |
| AttrOps.OneMore | internal/adscript/payload.go:78-95 | What one more operation under a spelling adds to those counted on each folded name. |
| AttrOps.AttrOps.AddValues | internal/adscript/payload.go:33-38 | The attribute counts one more Add iff this spelling had none; every other count stands, so further values never make a conflict. |
| AttrOps.AttrOps.RemoveValues | internal/adscript/payload.go:40-45 | The attribute counts one more Remove iff this spelling had none; every other count stands. |
| AttrOps.AttrOps.ReplaceValue | internal/adscript/payload.go:47-52 | The attribute counts one more Replace iff this spelling had none; every other count stands. |
| AttrOps.AttrOps.ClearName | internal/adscript/payload.go:56 | The attribute counts one more Clear at every call, so clearing it twice conflicts; every other count stands. |
| AttrOps.AttrOps.Apply | internal/adscript/payload.go:77-125 | Fails iff some folded name occurs in operations other than one or an Add/Remove pair, reports the least such name with its operations, and then leaves the splat untouched; on success writes one table for each kind, cleared names sorted. |
| AttrOps.AttrOps.WriteTables | internal/adscript/payload.go:110-123 | Writes a table under its own key for each kind of operation there is and leaves every other key alone. |
| AttrOps.AttrOps.SortedClear | internal/adscript/payload.go:119-122 | Without a conflict the cleared names, sorted, are the same names, each once. |
| AttrOps.AttrOps.FirstConflict | internal/adscript/payload.go:96-108 | The least conflicting name, whatever order the maps are walked in. |
| AttrOps.AcceptedAre | internal/adscript/payload.go:62-71 | A single operation on an attribute is accepted, and one Add with one Remove; every other combination is a conflict. |
| AttrOps.AttrOps.Seen | internal/adscript/payload.go:78-95 | The tally counts every spelling of a name under its folded form. |
| AttrOrder.UnconflictedIsCompatible | internal/adscript/payload.go:62-71 | Without a conflict, two operations on one attribute are an Add and a Remove. |
| AttrOrder.OrderIrrelevant | internal/adscript/payload.go:62-71 | Compatible operations leave the same object in every order that removes before it adds. |
| AttrOrder.AppliesInAnyOrder | internal/adscript/payload.go:77-125 | What Apply accepts has one outcome. |
| EncodeCommand.EncodeCommand | internal/adscript/encode.go:19-28 | The buffer loop produces base64 of the little-endian UTF-16 units. |
| EncodeCommand.DecodeCommand | internal/adscript/encode.go:30-43 | Fails iff the text is not base64 of an even number of bytes; otherwise decodes their units. |
| EncodeCommand.RoundTrip | internal/adscript/encode.go:19-43 | Decoding an encoded script gives it back, for every sequence of scalar values. |
| EncodeCommand.DecodesEncoded | internal/adscript/encode.go:19-43 | The same about the specification functions. |
| EncodeCommand.Utf16RoundTrip | internal/adscript/encode.go:20-42 | Surrogate pairs decode to the scalar value they came from. |
| EncodeCommand.LoneSurrogate | internal/adscript/encode.go:36-42 | A surrogate that is not half of a pair decodes to U+FFFD and decoding goes on behind it. |
| EncodeCommand.Base64RoundTrip | internal/adscript/encode.go:27-34 | Base64 decodes to the bytes it came from, in its alphabet, padding included. |
| EncodeCommand.AlphabetIs | internal/adscript/encode.go:27 | The digits are those of section 4 of RFC 4648. |
| EncodeCommand.GroupIs | internal/adscript/encode.go:27 | Four digits are the 24 bits of three bytes, six at a time. |
| EncodeCommand.Base64Is | internal/adscript/encode.go:27 | Whole groups, then two digits for one byte left over and three for two, padded. |
| EncodeCommand.BreaksIgnored | internal/adscript/encode.go:30-34 | Line breaks anywhere in the text do not matter. |
| EncodeCommand.EncodedShape | internal/adscript/encode.go:19-28 | The length is four characters for every three bytes begun, in the base64 alphabet. |

## Left out

- All real input and output (ssh, sftp, WinRM, SOAP, child processes) and the go-psrp and go-psrpcore libraries: an executor's answers are events or parameters.
- The WinRM pool's own classifier (transport/winrm/wrap.go): it rests on error sentinels and texts of go-psrp; its soundness is the assumption that the at-most-once results take as a condition.
- go-adcore: its keyed lock, name parser, escaper and error-code table are not part of this model; name identity, escaping and mapped kinds are parameters.
- JSON and PowerShell: an envelope is reduced to done, refused with a kind, or garbled; output streams are not joined.
- Clocks, jitter and backoff arithmetic: readings are parameters, a wait either ends or is cut short; the reaper's tick interval is any.
- Executors that Build returns are taken to be distinct, and Close to release what it is called on.
- The fake's attribute lookup with its aliases, and how an identity is resolved: parameters of the evaluator and of the membership handlers.
- Unicode case folding and space trimming: only ASCII letters fold and only ASCII space is trimmed.
- Strings.FoldMeans: lowers ASCII letters only, which is all that occurs in LDAP names; strings.ToLower lowers every letter.
- Filter.SpaceIgnored: covers ASCII space only.
- Go strings that are not valid UTF-8: a script is a sequence of scalar values.
- Configuration defaults and validation other than the pool's, logging and masking, script composition, and the user, group, computer and service-account clients, which repeat the OU client's shape.
- OUUpdate.Update: the first read fails only for want of the object; another object that takes over a distinguished name, the per-object lock and the wait for replication are not modelled.
- Failover.FailoverExecutor.Connect: the negative cache is shared by all pooled connections; this describes a Connect during which no other one marks or clears a host.
- Failover.FailoverExecutor.Probe: likewise.
- Failover.ConnectRecords: likewise.
- FakeUpdate.FakeObject.HandleUpdate: says nothing about the container when the script would leave an empty one, which no object has.
- ProtocolTheorems.AtMostOnce: takes a transient refusal by the directory for one without effect. A script that writes and then writes or reads again can be refused after its first write; for ou_update.ps1 OUUpdate.ReissueIff says exactly when issuing it again is harmless, and the other operations' scripts are not modelled.
- Runspace.Executor.Execute: how output objects are rendered and joined is left out, and so is any state of the pipeline but the point where it fails.
- WarmPool.Pool.ReapIdle: one sweep undisturbed by Runs; a sweep that finds the channel emptied under it is a step of the protocol instead.
- WarmPool.Pool.Close: with no Run in flight, as the code assumes; Runs in flight are covered by the protocol.
- PoolSteps.RunMeans: a panic inside a Run is not modelled.
