# Best-effort teardown in unirest-java

This project models the one piece of self-contained logic in unirest-java.
`ApacheClient.close()` tears down the three resources the client wraps:

- the Apache `HttpClient`, closed only if it is a `CloseableHttpClient`;
- the `PoolingHttpClientConnectionManager`;
- the `SyncIdleConnectionMonitorThread`, which is interrupted.

It does not throw the first exception it meets. It collects the exceptions
and returns them. It is built from the static helpers of `unirest.Util`:
`stream`, `tryCast`, `tryDo` and `collectExceptions`. The project also
models the two small conversions in that file, `nullToEmpty` and `getList`.

Three modules:

- `Java` (`java.dfy`) holds the part of the Java runtime the helpers use.
  It has nullable references (`Ref`), `java.util.Optional` (`Optional`),
  runtime classes with `isAssignableFrom`, objects with a `toString()`
  form, and how a call ends (`Outcome`, `Completion`).
- `Util` (`util.dfy`) holds the helpers. The pure ones are functions.
  `getList` is a method with a loop.
- `ApacheClient` (`apache_client.dfy`) holds the class, with the three
  `final` fields as `const`s. `Close` mirrors the Java expression step by
  step. It appends each teardown call it makes to the `attempted` log. It is
  proved against the specification functions `Eligible`, `Attempted`,
  `Failures`, `FirstEscape` and `CloseResult`. Lemmas state the promised
  properties over those functions.

The called code is not in this repository. That is `Closeable.close`,
`PoolingHttpClientConnectionManager.close` and `Thread.interrupt`. What each
call does is a parameter, `Behaviour`: it maps the target object to
`Completed` or to `Threw(t)`.

`tryDo` catches `Exception` (Util.java:59). An `Error`, or any other
`Throwable` that is not an `Exception`, is not caught. Java evaluates the
three arguments of `collectExceptions` left to right. So such a throwable
leaves `close()` at once, and the later teardowns are never tried. One might
expect `close()` to collect every failure; the code does not, and this model
follows the code: "every attempt is made" and "exactly the failures are
returned" hold when no teardown throws a non-`Exception`
(`CloseAttemptsAll`). When one does, the calls stop right after it
(`AttemptedStopsAtEscape`).

## Model

| member | source | states |
|---|---|---|
| `Util.Stream` | src/main/java/unirest/Util.java:42-44 | the stream has one element for a present Optional and none for an empty one, and every element is the Optional's value |
| `Util.TryCast` | src/main/java/unirest/Util.java:46-51 | null gives empty; the cast succeeds exactly when the reference is non-null and its runtime class is assignable to the target; a successful cast returns the same object |
| `Util.TryDo` | src/main/java/unirest/Util.java:53-62 | null gives empty; a normal call gives empty; a thrown `Exception` is returned, the same object that was thrown; a throwable that is not an `Exception` propagates; each case is an if-and-only-if |
| `Util.TryDoIgnoresConsumerOnNull` | src/main/java/unirest/Util.java:53-58 | on a null target the result does not depend on the consumer |
| `Util.StringValueOf` | src/main/java/unirest/Util.java:68 | `String.valueOf`: "null" for a null reference, otherwise the object's `toString()` form |
| `Util.NullToEmpty` | src/main/java/unirest/Util.java:64-69 | null gives the empty string; otherwise the result is `String.valueOf`, the object's string form |
| `Util.GetList` | src/main/java/unirest/Util.java:79-85 | one pair per part, same length and order; each pair's name is the part's name and its value is the string form of the part's value |
| `Util.CollectExceptions` | src/main/java/unirest/Util.java:87-89 | as many exceptions come out as there are present inputs; the k-th is the value at the k-th present position, so input order is kept and empties are dropped |
| `Util.StreamsInOrder` | src/main/java/unirest/Util.java:87-89 | `flatMap(Util::stream)` over the arguments keeps exactly the present values in order (the proof behind `CollectExceptions`) |
| `Util.CollectExceptionsAppend` | src/main/java/unirest/Util.java:87-89 | collecting a concatenation of argument lists concatenates the results |
| `Util.CollectExceptionsMembers` | src/main/java/unirest/Util.java:87-89 | an exception is collected exactly when some argument holds it |
| `Util.CollectExceptionsEmpty` | src/main/java/unirest/Util.java:87-89 | nothing is collected exactly when every argument is empty |
| `Util.PresentIndices` | src/main/java/unirest/Util.java:87-89 | the positions that survive flattening: strictly increasing, each holds a present value, and every present position is listed |
| `ApacheClient.ApacheClient.FromHttpClient` | src/main/java/unirest/ApacheClient.java:67-71 | the single-client constructor stores the client and leaves manager and monitor null |
| `ApacheClient.ApacheClient.constructor` | src/main/java/unirest/ApacheClient.java:73-79 | the three-argument constructor stores the three given references |
| `ApacheClient.ApacheClient.Attempt` | src/main/java/unirest/ApacheClient.java:97-101 | one `tryDo` step of `close()`: the call is made and logged only for a non-null target, and the result is `tryDo`'s |
| `ApacheClient.ApacheClient.Close` | src/main/java/unirest/ApacheClient.java:95-103 | the calls made are the due calls up to the first escaping throwable; the result is that throwable, or the exceptions of all due calls in order |
| `ApacheClient.ClientStep` | src/main/java/unirest/ApacheClient.java:96-99 | a client that is not a `CloseableHttpClient` (or is null) contributes nothing; a closeable one contributes `tryDo` of closing it |
| `ApacheClient.CloseResult` | src/main/java/unirest/ApacheClient.java:95-103 | the specified result of `close()`: it ends normally exactly when no due call throws a non-`Exception`, and then returns at most three exceptions |
| `ApacheClient.Eligible` | src/main/java/unirest/ApacheClient.java:95-103 | at most three teardown calls are due: client, then manager, then monitor |
| `ApacheClient.Attempted` | src/main/java/unirest/ApacheClient.java:95-103 | the calls made are always a prefix of the due calls |
| `ApacheClient.FirstEscape` | src/main/java/unirest/Util.java:53-62 | there is no escaping throwable exactly when no due call throws a non-`Exception` |
| `ApacheClient.Failures` | src/main/java/unirest/ApacheClient.java:95-103 | no more failures than calls |
| `ApacheClient.AttemptedAll` | src/main/java/unirest/ApacheClient.java:95-103 | with no escaping throwable, every due call is made |
| `ApacheClient.FirstEscapeAppend` | src/main/java/unirest/ApacheClient.java:95-103 | the first escape of two consecutive runs is the first run's, or else the second's |
| `ApacheClient.AttemptedAppend` | src/main/java/unirest/ApacheClient.java:95-103 | a failure caught in the first run does not stop the second run |
| `ApacheClient.FailuresAppend` | src/main/java/unirest/ApacheClient.java:95-103 | the failures of two consecutive runs are the first run's followed by the second's |
| `ApacheClient.CloseAttemptsAll` | src/main/java/unirest/ApacheClient.java:95-103 | `close()` ends normally exactly when no due call escapes, and then every due teardown is made, whatever exceptions earlier ones threw |
| `ApacheClient.AttemptedStopsAtEscape` | src/main/java/unirest/ApacheClient.java:95-103 | when a throwable escapes, the last call made threw it and none before it escaped |
| `ApacheClient.CloseErrorsOrdered` | src/main/java/unirest/ApacheClient.java:96-101 | the returned exceptions are the client's, then the manager's, then the monitor's, at most one each and at most three |
| `ApacheClient.FailuresEmpty` | src/main/java/unirest/ApacheClient.java:95-103 | no failures exactly when every call completes normally |
| `ApacheClient.CloseSucceeds` | src/main/java/unirest/ApacheClient.java:95-103 | `close()` returns the empty sequence exactly when every due teardown completes normally |
| `ApacheClient.NonCloseableClientIgnored` | src/main/java/unirest/ApacheClient.java:96-99 | a null or non-closeable client is never closed, and `close()` behaves as if there were no client |
| `ApacheClient.SingleClientClose` | src/main/java/unirest/ApacheClient.java:95-103 | with manager and monitor null, only the client's call can be made and at most one exception is returned |
| `ApacheClient.TryDoStep` | src/main/java/unirest/Util.java:53-62 | one step's `tryDo` result agrees with the specification functions on its due call |
| `ApacheClient.CollectThree` | src/main/java/unirest/Util.java:87-89 | collecting three optionals concatenates their streams in argument order |
| `ApacheClient.ClientEscapes` | src/main/java/unirest/ApacheClient.java:96-99 | if closing the client escapes, that throwable propagates and no other teardown is tried |
| `ApacheClient.ManagerEscapes` | src/main/java/unirest/ApacheClient.java:100 | if closing the manager escapes, it propagates after the client's step, and the monitor is not interrupted |
| `ApacheClient.MonitorEscapes` | src/main/java/unirest/ApacheClient.java:101 | if interrupting the monitor escapes, it propagates after every due call has been made |
| `ApacheClient.NoneEscapes` | src/main/java/unirest/ApacheClient.java:95-103 | if every step is caught, the source's `collectExceptions` of the three steps equals the specified result, and all due calls are made |

## Left out

- The configuration constructor `ApacheClient(Config)` (ApacheClient.java:43-65) is left out. It maps options field by field onto Apache's `HttpClientBuilder` and starts the monitor thread. The builder's behaviour is not part of this model.
- The idle-connection monitor thread's loop is concurrency. `SyncIdleConnectionMonitorThread` is not part of this model. Only the `interrupt()` call on it is modelled, with its outcome as a parameter.
- `Util.encode` (Util.java:71-77) is a wrapper over the JDK's `URLEncoder`, and `Util.emptyStream` is stream I/O. Both are left out.
- The getters `getClient`, `getManager` and `getSyncMonitor` just return the fields. The `const` fields stand for them.
- `ApacheClient.ApacheClient.Close`: the result is a finite `seq` and not a lazy `java.util.stream.Stream`. The three `tryDo` arguments are evaluated eagerly in Java anyway.
- `ApacheClient.Behaviour` maps each target to a fixed outcome. A teardown that behaves differently on a repeated `close()` is not modelled.
- `Util.GetList` assumes every part's value is non-null. `FormPart` is not modelled as a class; the model keeps only its name and value. With a null value, the source would throw `NullPointerException` from `toString()`.
- `Util.GetList` assumes the `parameters` collection and each of its entries are non-null. A `seq<FormPart>` can hold neither; in the source, a null collection makes the for-each throw `NullPointerException`, and so does a null entry at `entry.getName()`.
- `Util.GetList` assumes every part's name is non-null. `NameValuePair.name` is a `string`; with a null `getName()`, `BasicNameValuePair` would reject it with `IllegalArgumentException`.
- `Util.GetList` assumes the value's `toString()` returns a string and does not throw. `stringForm` is always a string; a throwing `toString()` would make `getList` throw.
- `Util.NullToEmpty` assumes `toString()` returns a non-null string and does not throw. A `toString()` that returns null makes `String.valueOf`, and so `nullToEmpty`, return null; one that throws makes `nullToEmpty` throw. Neither can be represented by `stringForm`.
- Object identity is modelled by value equality of `Obj`, which carries an `id`.
- `MultipartBody.java` declares signatures only. The test files `RequestCapture.java` and `VerbTest.java` are a servlet harness and integration tests against a live server. None of them are modelled.
