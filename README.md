# open-formation, modelled in Dafny

open-formation provisions a fleet of cloud machines described by a template
(`formation.json`) and then boots them. It runs a `default` script on every
machine, followed by each machine's own `__boot__` scripts. A script line may
embed JavaScript between `<%` and `%>`, which is evaluated and replaced by
what it prints before the line is sent to the machine over ssh.

This project models the engine behind that:

- the `Formation` constructor, which fills in template defaults and expands
  machine entries into named machines (`db` → `db0`, `db1`);
- `lint`;
- `instances()`, the registry of running instances by name;
- `createInstances`, `boot`, `run` and `exec`, as ordered plans of calls;
- the serial promise queue `Promise.map`;
- the generic record mapper `Mappable` (`new`, `Map`, `Unmap`) and the six
  mapping tables built on it: instances, AWS instances, volumes, elastic IPs,
  ECS services and Docker containers;
- the filters `find`, `findOne` and `byId`, the single-result checks on cloud
  responses, and the shaping of request parameters;
- the `<% … %>` scanner and the substitution loop of the evaluator;
- ssh quoting and the ssh and scp command lines;
- the table printer of the command line: widths, padding and colour rotation.

Every cloud response, remote command result, DNS answer, file-system answer
and every evaluation of embedded JavaScript enters the model as a parameter
(an oracle). JavaScript values are the datatype `Js.Value`. Objects are
ordered property lists. lodash's `get`, `set`, `defaults`, `assign`, `keyBy`,
`compact`, `uniq`, `trim` and `padEnd` are defined in `Js` with the behaviour
the source relies on.

Files and modules:

| file | module | models |
|---|---|---|
| js.dfy | Js | JavaScript values and the lodash functions used |
| queue.dfy | Queue | `Promise.map` (index.js) |
| mappable.dfy | Mappable | models/mappable.js |
| instance.dfy | Instance | models/instance.js |
| formation.dfy | Formation | models/formation.js |
| evaluator.dfy | Evaluator | models/evaluator.js |
| aws_instance.dfy | AwsInstance | models/aws-instance.js |
| aws_volume.dfy | AwsVolume | models/aws-volume.js |
| aws_elastic_ip.dfy | AwsElasticIp | models/aws-elastic-ip.js |
| aws_service.dfy | AwsService | models/aws-service.js |
| docker_instance.dfy | DockerInstance | models/docker-instance.js |
| utils.dfy | Utils | utils/index.js |
| table.dfy | Table | the table layout that cli.js and cmds/index.js share |
| cli.dfy | Cli | cli.js |
| cmds.dfy | Cmds | cmds/index.js |

Behaviours of the code that the model keeps as they are:

- `instances()` retries a failed load once (models/formation.js:99-104). The
  counter is incremented before it is compared with `maxErrCount`, which is 5
  (models/formation.js:86), and only the first load has a `catch`, so the
  second failure is final.
- `boot` runs `default` even when the formation defines no such script
  (models/formation.js:176). `run` then sends the word `default` itself as an
  inline command (models/formation.js:210).
- A failure in the `default` phase rejects the whole boot. Failures are
  neither isolated per machine nor collected (models/formation.js:176-198).
- The machine specs handed to `create` lose every key of the form `__name__`,
  not just `__boot__` (models/formation.js:10 and 122).

## Model

| member | source | states |
|---|---|---|
| Queue.SerialMeetsSpec | index.js:13-21 | The queue resolves with one result per element, in element order, exactly when no step rejects. Otherwise it rejects with the message of the first rejecting step, and no later step runs. |
| Queue.Serial | index.js:13-21 | The serial `Promise.map`. It has no contract of its own; `Queue.SerialMeetsSpec`, `Queue.SerialOk` and `Queue.SerialEffects` state how it settles. |
| Queue.SerialQueue | index.js:16-20 | The reduce that chains each step onto the previous one and pushes each result settles as the queue specification says. |
| Queue.SerialOk | index.js:16-20 | In a queue that resolved, every step resolved. |
| Queue.SerialEffects | index.js:16-19 | A queue that resolved did what each element's step did, element after element. |
| Queue.SerialEmpty | index.js:13-20 | With nothing to iterate over, the queue resolves to `[]` and runs nothing. |
| Queue.SerialOneFails | index.js:13-20 | A queue of one element whose step rejects rejects with that step's message, after that step's effects. |
| Mappable.BaseMapping | models/mappable.js:53-55 | The base class has no table: asking for it is always the "Mappable must be subclassed." error. |
| Mappable.FieldValue | models/mappable.js:11-13 | A path field takes the value at its path, or null when that is undefined. A derived field takes the function's value when it is truthy, and null otherwise. A field is never undefined. |
| Mappable.Entity | models/mappable.js:11-14 | The new entity has one property per distinct key of the table, in table order. The value comes from the key's last declaration, and there are no other properties. |
| Mappable.EntityOfDistinct | models/mappable.js:11-14 | With distinct names, the entity is one property per table entry, in entry order. |
| Mappable.Construct | models/mappable.js:7-15 | A falsy input fails with "Invalid input." before the table is consulted. A table error propagates. Otherwise the result is an object where every key of the table holds its field value. |
| Mappable.NotAField | models/mappable.js:11-14 | A key that the table does not name is undefined on the entity. |
| Mappable.FieldOf | models/mappable.js:11-14 | The entity's field for table entry `i` is that entry's value, when no later entry redeclares the name. |
| Mappable.Map | models/mappable.js:17-28 | An array gives an array with one entity per truthy element, in order. A truthy non-array gives the entity itself. A falsy non-array gives `[]`. Only a table error fails. |
| Mappable.MapOfArray | models/mappable.js:17-28 | Mapping an array gives one entity per truthy element, in order. Every entity comes from a truthy element, and every truthy element gives an entity. |
| Mappable.MapOfObject | models/mappable.js:17-28 | A single object maps to a single entity, not to a one-element array. |
| Mappable.WritePath | models/mappable.js:39-40 | `Unmap` writes a property at the table's path when the table maps the key to a path, and under the key itself otherwise. It never writes at an empty path. |
| Mappable.UnmapOne | models/mappable.js:36-42 | The `forEach` that fills the fresh record `r` writes every property of the entity, in order, at its write path. |
| Mappable.Unmap | models/mappable.js:30-51 | `Unmap` fails exactly when the table does. It follows `Map`'s cardinality rule: an array gives one record per truthy element, a truthy single entity gives one record, and a falsy one gives `[]`. |
| Mappable.UnmapOfObject | models/mappable.js:30-51 | A single object unmaps to a single request record, which is an object. |
| Mappable.UnmapPropsKeeps | models/mappable.js:38-41 | Once a path holds a defined value, writes along paths that part from it leave it unchanged. |
| Mappable.UnmapPropsWrites | models/mappable.js:38-41 | A property's value ends up at its write path when every other property is written along a path that parts from it. |
| Mappable.MapUnmapRestores | models/mappable.js:7-51 | `Map(Unmap(e))` gives a path-mapped field its value back. This needs three conditions: the value is defined, the path starts with a property name, and every other property of `e` is written along a path that parts from it. |
| Instance.BaseMapping | models/instance.js:13-15 | The base `mapping` always fails with the "must be subclassed" error. |
| Instance.BaseLoad | models/instance.js:51-53 | The base `load` always fails with the same error. |
| Instance.BaseCreate | models/instance.js:58-60 | The base `create` always fails with the same error. |
| Instance.BaseInstanceFails | models/instance.js:13-38 | Without a platform connector, constructing, mapping, unmapping and finding all fail with the subclass error. |
| Instance.Select | models/instance.js:28-37 | An instance is kept exactly when it was loaded, is truthy, and either the filter is empty or some filter pair matches one of its pairs. The result is never longer than the load. |
| Instance.SelectOne | models/instance.js:28-37 | One loaded instance is kept exactly when the filter keeps it. |
| Instance.SelectAppend | models/instance.js:28-37 | `find` over two runs of instances is `find` over each in turn, so the kept instances stay in load order, each kept as often as it was loaded, and nothing is added. |
| Instance.Find | models/instance.js:26-38 | `find` fails exactly when the load fails. Otherwise it keeps exactly the loaded instances that `Select` keeps (OR semantics). |
| Instance.SelectEmptyFilter | models/instance.js:27-30 | An empty filter returns every loaded instance, in load order. |
| Instance.OnePairMatches | models/instance.js:31-34 | One filter pair whose text equals one of the instance's pair texts is enough to keep the instance. |
| Instance.FindOne | models/instance.js:40-46 | `findOne` succeeds exactly when `find` returns one instance, and then returns it. Any other count is "findOne did not find exactly 1 match." |
| Instance.ById | models/instance.js:22-24 | `byId` is `findOne({id})`. What it returns is a loaded instance that carries the pair `id` + id. |
| Instance.JoinPathLast | models/instance.js:69 | Joined onto a directory, a file name without slashes is the last path segment. |
| Instance.KeyPath | models/instance.js:68-70 | The key path starts with the working directory and ends in `<keyName>_<region>.pem`. When the directory does not end in `/`, it is exactly `<cwd>/<keyName>_<region>.pem`. |
| Instance.SshOutcome | models/instance.js:72-82 | A failed command run fails the call. Otherwise the raw results are returned when `results` is truthy, and the re-fetched instance otherwise. |
| Formation.DefaultConfig | models/formation.js:15-19 | A missing config becomes `{type: 't2.nano', region: 'us-east-1'}`. A config object gains only the type or region it lacks; every other key is unchanged. |
| Formation.WithDefaults | models/formation.js:15-23 | Missing `scripts`, `machines` and `services` become `{}`, and the config is defaulted. No other key of the template changes. |
| Formation.Machine | models/formation.js:29-31 | A machine is named by the generated name. Every other key comes from its spec when the spec has it, and from the config otherwise. |
| Formation.ExpandEntry | models/formation.js:26-32 | An entry gives one machine object per spec. |
| Formation.ExpandEntryShape | models/formation.js:26-32 | A single spec, or a list of one, is named by the key. A list of several names spec `i` key + `i`. Each machine is its spec overlaid on the config. |
| Formation.EmptyListNoMachine | models/formation.js:27-32 | An empty list gives no machine. |
| Formation.FlattenExpanded | models/formation.js:25-33 | Flattening leaves every entry's machines in entry order. |
| Formation.CompactExpanded | models/formation.js:33-34 | Compacting the flattened machines drops none of them. |
| Formation.MachinesInOrder | models/formation.js:25-35 | `this.machines` is every entry's machines, entry after entry, in template order. |
| Formation.DefinitionFamily | models/formation.js:37 | A task definition that names no family takes its key as family. |
| Formation.Definitions | models/formation.js:36-37 | There is one definition per entry, in order. |
| Formation.TaskDefinitions | models/formation.js:36-39 | The definitions are filed under distinct families. |
| Formation.TaskDefinitionFiled | models/formation.js:36-39 | When no definition names its own family, a key is filed exactly when the template defines it, and its definition's family is that key. |
| Formation.FamiliesAreKeys | models/formation.js:36-38 | Such definitions take the template keys as families, in order. |
| Formation.New | models/formation.js:14-42 | `scripts` and `services` are the template's, or `{}` when missing. `machines` is the expansion of the defaulted template. |
| Formation.LintNamesIff | models/formation.js:49-53 | Names pass exactly when they are distinct and none is falsy. |
| Formation.CheckScripts | models/formation.js:59-62 | A `__boot__` list passes exactly when every name in it is a script that the formation defines. Otherwise the error names an undefined script. |
| Formation.LintScripts | models/formation.js:55-64 | Scripts pass exactly when every machine's `__boot__` is an array of defined scripts. A failure is either the non-array error or the missing-script error of some machine. |
| Formation.Lint | models/formation.js:44-47 | `lint` passes exactly when names are distinct and truthy and every machine's `__boot__` lists defined scripts. |
| Formation.Expand | models/formation.js:25-33 | Every expanded machine is an object. |
| Formation.Declared | models/formation.js:94 | The filter keeps no more instances than were loaded. |
| Formation.DeclaredMembers | models/formation.js:94 | An instance is kept exactly when it is running under a declared name. |
| Formation.DeclaredLastWith | models/formation.js:94-95 | Filtering keeps the last instance filed under a declared name, and leaves none under an undeclared name. |
| Formation.LoadOnce | models/formation.js:91-97 | A failed find propagates. One instance without an ip fails the load, even an undeclared one, with "No ip found for instance". |
| Formation.RegistryByName | models/formation.js:84-98 | A loaded registry comes from a successful `Instance.load`. Under each declared name it holds the last instance with that name among those `find({state: 'running'})` keeps, and nothing under any other name. |
| Formation.Registry | models/formation.js:87-97 | One load of `instances()` from what `Instance.load` settles with. It has no contract of its own; `Formation.RegistryByName` and `Formation.RegistryRunning` state what it holds. |
| Formation.RegistryRunning | models/formation.js:87-97 | Everything in a loaded registry is a loaded instance that the `{state: 'running'}` filter keeps. It has an ip, and its name is the declared name it is filed under. |
| Formation.Instances | models/formation.js:99-104 | A failed first load of the running instances is replaced by a second load, whose outcome is final. |
| Formation.OptionKeys | models/formation.js:10 | `__boot__` is an option key. `name`, `__boot` and `____` are not. |
| Formation.StripOptionsOmits | models/formation.js:122 | Stripping drops exactly the option keys and keeps every other property. |
| Formation.AsWrittenNeverCreates | models/formation.js:114-126 | As written, `createInstances` never creates a machine. |
| Formation.CreatedAsWritten | models/formation.js:111-127 | `createInstances` as written, the as-written half of the Findings row for models/formation.js:114-121. It has no contract of its own; `Formation.AsWrittenNeverCreates` and `Formation.AsWrittenFailsOnEmptyAccount` state that it never creates a machine. |
| Formation.AsWrittenFailsOnEmptyAccount | models/formation.js:114-120 | As written, a one-machine formation on an account with no instances fails with the `findOne` error. |
| Formation.CreatesOnEmptyAccount | models/formation.js:119-124 | As intended, provisioning on an empty account creates the machine and records its name. |
| Formation.Created | models/formation.js:111-127 | `createInstances` as intended, the corrected half of that Findings row. It has no contract of its own; `Formation.CreatedExactlyUnprovisioned`, `Formation.CreatedIffCreationsSucceed` and `Formation.CreatedErrStays` state what it creates and when it fails. |
| Formation.Unprovisioned | models/formation.js:114-121 | A name is unprovisioned exactly when it is the name of a machine with no running instance of that name. |
| Formation.CreatedExactlyUnprovisioned | models/formation.js:119-121 | Provisioning creates exactly the machines with no running instance, in declared order. |
| Formation.CreatedIffCreationsSucceed | models/formation.js:124-129 | Provisioning succeeds exactly when every creation it attempts succeeds. |
| Formation.CreatedErrStays | models/formation.js:129 | Once provisioning has failed, later machines change nothing. |
| Formation.CreateInstances | models/formation.js:111-129 | The loop that pushes every created name computes the provisioning specification. |
| Formation.Position | models/formation.js:131 | `_.findIndex` is -1 or a position in the machine list. |
| Formation.PositionFirst | models/formation.js:131 | The position is that of the first machine with the name, or -1 when there is none. |
| Formation.InsertByPosition | models/formation.js:131 | Inserting keeps a list sorted by position and adds exactly the name. |
| Formation.SortByPosition | models/formation.js:131 | The created names are sorted by their machines' declared positions, and form a permutation of the created names. |
| Formation.ExecCalls | models/formation.js:219-233 | `exec` succeeds only when there are commands, the registry loaded and every name has an instance. It then runs the commands once per name, in order. |
| Formation.Exec | models/formation.js:219-233 | `exec`. It has no contract of its own; `Formation.ExecCalls` and `Formation.ExecMissingWins` state how it settles. |
| Formation.FirstUnresolved | models/formation.js:224-227 | The first name, by position, without an instance: none exactly when every name has one, and otherwise a name without an instance all of whose predecessors have one. |
| Formation.ExecMissingWins | models/formation.js:219-233 | When some name has no instance, `exec` rejects with "Unable to find instance for name" for the first such name, whatever the commands of the names before it do. Only those earlier names had their commands started. |
| Formation.RunCallsLemma | models/formation.js:208-217 | A successful `run` executes the script when the formation defines it, and the script name itself as an inline command otherwise, once per name. |
| Formation.Run | models/formation.js:208-217 | `run`. It has no contract of its own; `Formation.RunCallsLemma` states what a successful `run` executes. |
| Formation.BootNothing | models/formation.js:166-168 | Null names fail. Undefined or empty names resolve and run nothing. |
| Formation.Boot | models/formation.js:166-199 | `boot`, with each `exec` reading the registry its own `instances()` settles with. It has no contract of its own; `Formation.BootNothing`, `Formation.BootUnfold`, `Formation.BootOrder`, `Formation.BootLostInstance` and `Formation.BootScriptLostInstance` state how it settles. |
| Formation.MachineStepCalls | models/formation.js:183-197 | A name's step succeeds only when the name has an instance and a declared machine. It then runs the machine's `__boot__` scripts in array order. |
| Formation.BootUnfold | models/formation.js:176-183 | A successful boot runs `default` on all names. The reload after it succeeds, and then the queue over the names runs against the reloaded registry. |
| Formation.BootQueue | models/formation.js:183-197 | The queue over the names runs each name's `__boot__` scripts, name after name. |
| Formation.BootOrder | models/formation.js:166-199 | A successful boot runs `default` on every name first, then each name's `__boot__` scripts in array order, name after name. Every name had an instance in the registry reloaded after `default`, and a declared machine. |
| Formation.BootLostInstance | models/formation.js:176-185 | A name that `default` ran on but that the reload no longer finds stops the boot with "Unable to find instance by name", after the `default` calls and before any `__boot__` script. |
| Formation.BootOne | models/formation.js:176-197 | Booting one name, once `default` succeeded and the reload loaded, ends as that name's own step ends when the step rejects, after the `default` calls. |
| Formation.RunMissing | models/formation.js:208-227 | `run` on one name that the registry lacks rejects with "Unable to find instance for name" before any command starts. |
| Formation.BootMachineMissing | models/formation.js:183-196 | A name whose first `__boot__` script finds no instance for it rejects with the `exec` error, before any command. |
| Formation.BootScriptLostInstance | models/formation.js:192-227 | A name the reload found, but that the `instances()` of its first `__boot__` script no longer holds, stops the boot after the `default` calls with the `exec` error "Unable to find instance for name". |
| Evaluator.MatchEnd | models/evaluator.js:22 | A match at `i` is `<%`, then the fewest characters up to a `%>`, with no line terminator among them. When no match starts at `i`, the reason is stated. |
| Evaluator.NextMatch | models/evaluator.js:22-25 | `exec` from `lastIndex` finds the leftmost start of a match, or reports that none exists. |
| Evaluator.Matches | models/evaluator.js:24-29 | Every match lies within the command. |
| Evaluator.MatchesAreMatches | models/evaluator.js:24-29 | Every match found is a match that starts at or after the scan position. |
| Evaluator.MatchesDisjoint | models/evaluator.js:24-29 | Matches do not overlap. |
| Evaluator.MatchesLeftmost | models/evaluator.js:24-29 | No match starts between two consecutive matches. |
| Evaluator.MatchesExhaustive | models/evaluator.js:24-29 | No match starts after the last one. |
| Evaluator.SpansAreMatches | models/evaluator.js:21-31 | `parse` returns the text of every match, left to right. |
| Evaluator.SpanShape | models/evaluator.js:22 | Every span opens with `<%` and closes with the first `%>` after it. It holds no line terminator. |
| Evaluator.MatchShape | models/evaluator.js:22 | The text of a match has the shape of a span. |
| Evaluator.NoOpeningNoSpans | models/evaluator.js:21-31 | A command where no `<%` occurs has no spans. |
| Evaluator.Parse | models/evaluator.js:21-31 | The `exec` loop pushes exactly the spans, in order. |
| Evaluator.Body | models/evaluator.js:58 | The body is a slice of the span that neither starts nor ends with `<`, `%` or `>`. Everything cut before and after it is one of those characters. |
| Evaluator.BodyOfSpan | models/evaluator.js:58 | The body of `<%x%>` is `x` when `x` neither starts nor ends with a delimiter. |
| Evaluator.Printable | models/evaluator.js:70-71 | Exactly the printed strings and numbers are kept. Their order and repeats are stated by `Evaluator.PrintableOne` and `Evaluator.PrintableAppend`. |
| Evaluator.PrintableOne | models/evaluator.js:70-71 | A single printed value is kept exactly when it is a string or a number. |
| Evaluator.PrintableAppend | models/evaluator.js:70-71 | Filtering two runs of output one after the other is filtering each in turn, so the kept values stay in print order, repeats included. |
| Evaluator.ReplacementOfNothing | models/evaluator.js:70-72 | When nothing printable was printed, the span is replaced by nothing. |
| Evaluator.Replacement | models/evaluator.js:70-72 | The printable values joined by single spaces. It has no contract of its own; `Evaluator.ReplacementOfNothing`, `Evaluator.PrintableOne` and `Evaluator.PrintableAppend` state what goes into it. |
| Evaluator.FirstIndex | models/evaluator.js:73 | This finds the leftmost occurrence of the span text, or reports that none exists. |
| Evaluator.ReplaceFirst | models/evaluator.js:73 | The first occurrence is replaced literally by the printed text, and the rest of the command is kept. Without an occurrence the command is unchanged. |
| Evaluator.ExpandPlain | models/evaluator.js:73 | A replacement without `$` is inserted as written. |
| Evaluator.AsWrittenAgreesWithoutDollar | models/evaluator.js:73 | Without `$` in the printed text, `_.replace` and the literal replacement agree. |
| Evaluator.DollarDollarCollapses | models/evaluator.js:73 | A span that prints `echo $$` leaves `echo $` in the command, where a literal replacement leaves `echo $$`. |
| Evaluator.ReplaceFirstAsWritten | models/evaluator.js:73 | `_.replace` as written, the as-written half of the Findings row for models/evaluator.js:73. It has no contract of its own; `Evaluator.AsWrittenAgreesWithoutDollar` and `Evaluator.DollarDollarCollapses` state where it agrees with the literal replacement and where it does not. |
| Evaluator.Expand | models/evaluator.js:73 | The replacement patterns of `String.prototype.replace`. It has no contract of its own; `Evaluator.ExpandPlain` and `Evaluator.ExpandEcho` state what it does with and without `$`. |
| Evaluator.ExpandEcho | models/evaluator.js:73 | The expansion behind the Findings row: the replacement text `echo $$` becomes `echo $`. |
| Evaluator.EvaluateOne | models/evaluator.js:43-77 | A non-string command fails with "Invalid command …". Otherwise the command settles as the serial queue over its spans settles, with the same effects and the same failure. The replacement is the corrected one of the Findings row for models/evaluator.js:73: the printed text goes in literally. |
| Evaluator.EvaluateCommand | models/evaluator.js:51-76 | The loop that runs each span in turn and reassigns `replacedCommand` computes the specification. It uses the corrected, literal replacement of the Findings row for models/evaluator.js:73. |
| Evaluator.EvaluatesIffSpansSettle | models/evaluator.js:52-75 | A command evaluates exactly when the body of every span settles, each run after the bodies before it. |
| Evaluator.SpanStep | models/evaluator.js:52-75 | One span as a step of the queue: its body runs in the shared context after the earlier bodies. It has no contract of its own; `Evaluator.EvaluatesIffSpansSettle` and `Evaluator.EvaluatedCommand` state what the steps do together. |
| Evaluator.EvaluatedCommand | models/evaluator.js:51-76 | An evaluated command ran every body once, in order. Its result is the command with each span replaced by what its body printed, inserted literally as the Findings row for models/evaluator.js:73 intends. |
| Evaluator.NoSpansUnchanged | models/evaluator.js:45-76 | A command without spans comes back unchanged, and nothing runs. |
| Evaluator.Evaluate | models/evaluator.js:17-19 | `evaluate` gives one result per command. |
| Evaluator.EvaluateInOrder | models/evaluator.js:17-19 | Commands are evaluated in order, each after the previous one settled. The first failure ends the evaluation. |
| Evaluator.EvaluateNothing | models/evaluator.js:17-19 | With no commands, nothing runs and the result is `[]`. |
| AwsInstance.IpField | models/aws-instance.js:33-35 | `ip` is `PublicIpAddress` when truthy, else `PrivateIpAddress` when truthy, else null. |
| AwsInstance.StateField | models/aws-instance.js:29 | `state` reads `State.Name`, and is null where it is missing. |
| AwsInstance.ZoneField | models/aws-instance.js:31 | `zone` reads `Placement.AvailabilityZone`, and is null where it is missing. |
| AwsInstance.NameField | models/aws-instance.js:38-41 | `name` is the `Value` of the last tag keyed `Name`, because `_.keyBy` keeps the last. It is '--none--' when there is no such tag or the tag has no `Value`, and null when the `Value` is falsy. |
| AwsInstance.NameOfTags | models/aws-instance.js:38-41 | The `_.get` on the tags filed by key reads the `Value` of the last `Name` tag, or '--none--'. |
| AwsInstance.NameOf | models/aws-instance.js:38-41 | The `name` field. It has no contract of its own; `AwsInstance.NameOfTags` states its value. |
| AwsInstance.TagsField | models/aws-instance.js:43-48 | `tags` is the object from tag key to tag value. |
| AwsInstance.TagsOf | models/aws-instance.js:43-48 | The `tags` field. It has no contract of its own; `AwsInstance.TagsField` and `AwsInstance.TagsRoundTrip` state its value. |
| AwsInstance.TagsRoundTrip | models/aws-instance.js:43-48 | Tags sent as a `{Key, Value}` list by `setTags` read back as the same object. |
| AwsInstance.KeyByTagList | models/aws-instance.js:44-45 | Filing a tag list by key gives one entry per tag, in order. |
| AwsInstance.ValuesOfFiled | models/aws-instance.js:46 | Taking `Value` of every filed entry gives the tags back. |
| AwsInstance.RegionInstances | models/aws-instance.js:79-84 | A region gives one instance per truthy record of its reservations. |
| AwsInstance.RegionInstance | models/aws-instance.js:84-89 | Instance `j` of a region is record `j` mapped through the table, with `region` set to that region. |
| AwsInstance.Load | models/aws-instance.js:76-92 | `load` succeeds exactly when every region's query succeeds. |
| AwsInstance.LoadHolds | models/aws-instance.js:76-92 | An instance is loaded exactly when some region's query returned it. |
| AwsInstance.LoadFrom | models/aws-instance.js:76-92 | The regions from a given one on succeed exactly when each of their queries succeeds. `AwsInstance.LoadHolds` states what they load. |
| AwsInstance.LoadTagsRegion | models/aws-instance.js:57-89 | Every loaded instance carries the region whose query returned it. |
| AwsInstance.DefaultAll | models/aws-instance.js:96-112 | `_.defaults` fills exactly the keys the options leave undefined, and keeps every other key. |
| AwsInstance.DefaultedLookup | models/aws-instance.js:96-112 | After defaulting, each option is the caller's value, or the default where the caller left it undefined. |
| AwsInstance.DefaultImageNamed | models/aws-instance.js:97 | The defaults name the Ubuntu 16.04 image. |
| AwsInstance.DefaultImageWins | models/aws-instance.js:96-118 | Unless `imageName` is given, the default image is looked up by name and the caller's `imageId` is ignored. |
| AwsInstance.ShapeCreate | models/aws-instance.js:95-137 | `create` up to the runInstances request follows its specification: default, pick the image, reshape, unmap. |
| AwsInstance.Reshape | models/aws-instance.js:114-133 | The step-by-step changes to `options` compute the reshaping specification. |
| AwsInstance.CreateFailsIff | models/aws-instance.js:113-119 | `create` fails exactly when the image lookup fails. |
| AwsInstance.ChosenImage | models/aws-instance.js:115-118 | The image `create` asks for. It has no contract of its own; `AwsInstance.CreateFailsIff` and `AwsInstance.DefaultImageWins` state which image is chosen and when the choice fails. |
| AwsInstance.MoveNameFacts | models/aws-instance.js:127-130 | A truthy name becomes `tags.Name` and is removed. No other option except `tags` changes. |
| AwsInstance.MoveName | models/aws-instance.js:127-130 | The `name` option moved under `tags.Name`. It has no contract of its own; `AwsInstance.MoveNameFacts` states what it changes. |
| AwsInstance.ReshapedKey | models/aws-instance.js:115-130 | Reshaping changes no option except `imageName`, `imageId`, `name` and `tags`. |
| AwsInstance.ReshapedImage | models/aws-instance.js:115-126 | After reshaping, `imageName` is gone, `imageId` is the chosen image, and the region is kept. |
| AwsInstance.ReshapedName | models/aws-instance.js:127-130 | After reshaping, a truthy name has moved to `tags.Name`. |
| AwsInstance.CreateParamsFacts | models/aws-instance.js:131-133 | The runInstances request never carries `region` or `tags`. |
| AwsInstance.CreateParams | models/aws-instance.js:131-133 | The runInstances request. It has no contract of its own; `AwsInstance.CreateParamsFacts` states what it leaves out. |
| AwsInstance.ImageIdByName | models/aws-instance.js:177-183 | The lookup succeeds exactly when one image with a truthy id is found. Several images give "Found multiple AMI's", and none gives "AMI not found". |
| AwsInstance.SetTagsRequest | models/aws-instance.js:240-248 | No tags means no request. Otherwise there is one `{Key, Value}` per tag. |
| AwsInstance.SingleInstanceId | models/aws-instance.js:263-267 | A stop or terminate response passes exactly when it lists one instance id. Otherwise it is the "Invalid instances length" error. |
| AwsInstance.Stop | models/aws-instance.js:257-270 | A single stopped id is re-fetched by `byId`. Any other count fails. |
| AwsInstance.Terminate | models/aws-instance.js:272-285 | `terminate` returns the instance itself exactly when one termination is reported. |
| AwsVolume.UnattachedDevice | models/aws-volume.js:10 | A volume without attachments has a null `device`. |
| AwsVolume.UnattachedInstanceId | models/aws-volume.js:11 | A volume without attachments has a null `instanceId`. |
| AwsVolume.AttachedDevice | models/aws-volume.js:10 | `device` is the first attachment's `Device`. |
| AwsVolume.AttachedInstanceId | models/aws-volume.js:11 | `instanceId` is the first attachment's `InstanceId`. |
| AwsVolume.AttributeFields | models/aws-volume.js:12-16 | `id`, `zone`, `size`, `state` and `type` read `VolumeId`, `AvailabilityZone`, `Size`, `State` and `VolumeType`, and are null where missing. |
| AwsVolume.NameField | models/aws-volume.js:17-20 | `name` is the `Value` of the last tag keyed `Name`, or '--none--' as for instances. |
| AwsVolume.DevicePathParts | models/aws-volume.js:10-11 | The device path parts from every other field's write path, so writing another field never overwrites the device. |
| AwsVolume.DeviceRoundTrip | models/aws-volume.js:10-11 | Writing back any volume that carries only the table's fields, and mapping it again, keeps its device. |
| AwsVolume.MappedDeviceRoundTrip | models/aws-volume.js:9-19 | A volume exactly as `Volume.map` builds it keeps its device when it is written back and mapped again. |
| AwsVolume.ByInstanceId | models/aws-volume.js:24-29 | Exactly the loaded volumes attached to the instance are returned, and no more than were loaded. |
| AwsVolume.ByInstanceIdOne | models/aws-volume.js:24-29 | A single volume is returned exactly when it is attached to the instance. |
| AwsVolume.ByInstanceIdAppend | models/aws-volume.js:24-29 | Filtering a concatenation concatenates the filtered parts. With ByInstanceIdOne, this fixes the result in load order. |
| Js.FirstWith | models/aws-volume.js:31-34 | `Volume.byId` (AwsVolume.ById) gives the first volume with the id, or nothing when no volume has it. The same lookup serves `byUrl` of models/aws-elastic-ip.js. |
| AwsVolume.AttachRequest | models/aws-volume.js:61-67 | The device defaults to `/dev/sdf`. The instance and volume ids are passed through. |
| AwsElasticIp.TableValues | models/aws-elastic-ip.js:15-19 | `id`, `instanceId` and `ip` read `AllocationId`, `InstanceId` and `PublicIp`. |
| AwsElasticIp.EntityShape | models/aws-elastic-ip.js:15-19 | An address is exactly those three fields, in that order. |
| AwsElasticIp.Address | models/aws-elastic-ip.js:15-19 | `new ElasticIp(record)` is that entity. |
| AwsElasticIp.WritePaths | models/aws-elastic-ip.js:15-19 | `Unmap` writes the three fields back to `AllocationId`, `InstanceId` and `PublicIp`. |
| AwsElasticIp.WritesField | models/aws-elastic-ip.js:15-19 | Each written attribute holds its field's value. |
| AwsElasticIp.AddressRoundTrip | models/aws-elastic-ip.js:15-19 | Mapping an unmapped address gives the same address. |
| AwsElasticIp.Load | models/aws-elastic-ip.js:34-39 | `load` gives one address per record, in order. |
| AwsElasticIp.ByIp | models/aws-elastic-ip.js:27-31 | `byUrl` gives an address holding the resolved ip, the first one by Js.FirstWith, and nothing exactly when no address has that ip. |
| AwsService.ClusterNameField | models/aws-service.js:21-23 | `clusterName` is the text after the last `/` of `clusterArn`. |
| AwsService.ClusterNameOf | models/aws-service.js:21-23 | The `clusterName` field. It has no contract of its own; `AwsService.ClusterNameOfArn` and `AwsService.ClusterNameField` state its value. |
| AwsService.ClusterNameOfArn | models/aws-service.js:21-23 | A cluster ARN `<prefix>/<name>`, with a non-empty name free of `/`, gives `clusterName` that name. |
| AwsService.NoClusterName | models/aws-service.js:21-23 | Without a cluster ARN, or with one that ends in `/`, `clusterName` is null. |
| AwsService.Pages | models/aws-service.js:41-55 | Paging reads replies while they carry a `nextToken`, and stops after the first reply without one. |
| AwsService.RequestTokens | models/aws-service.js:42-52 | The first page is asked for without a token. Each later page is asked for with the previous reply's `nextToken`. |
| AwsService.ServiceNames | models/aws-service.js:45-48 | There is one name per listed ARN. |
| AwsService.ServiceNameOfArn | models/aws-service.js:47 | A service's name is the text after its ARN's last slash. |
| AwsService.DescribeCall | models/aws-service.js:49-50 | A describe call is made exactly for a page that lists services, and it asks for those services. |
| AwsService.DescribeCalls | models/aws-service.js:49-51 | There is one pushed entry per page read, in page order. |
| AwsService.CollectDescribes | models/aws-service.js:41-55 | The recursive paging computes the describe calls of the pages read. |
| AwsService.AllServices | models/aws-service.js:56-60 | The services are those of every describe result. Pages without services contribute none. |
| AwsService.Load | models/aws-service.js:37-62 | When every SDK call succeeds, `load` gives one entity per truthy described service, in page order, each mapped through the table. Every loaded entity comes from such a service, and every such service is loaded. |
| AwsService.LoadWithoutServices | models/aws-service.js:49-50 | When no page lists a service, no describe call is made and nothing is loaded. |
| AwsService.CreateRequest | models/aws-service.js:27-30 | `desiredCount` is 1 unless the caller gave one. No other parameter changes. |
| AwsService.CreateResult | models/aws-service.js:34 | `create` returns the reply's `service`, mapped. |
| AwsService.UpdateRequest | models/aws-service.js:91-96 | `cluster` and `service` come from the service unless the caller's parameters override them. |
| AwsService.DeleteRequest | models/aws-service.js:82-88 | `delete` sends exactly the service's cluster name and name. |
| AwsService.TaskDefinitionSummary | models/aws-service.js:64-73 | The summary is `arn`, `name` and `revision`, read from `taskDefinitionArn`, `family` and `revision`. |
| AwsService.RegisterThenUpdate | models/aws-service.js:75-80 | The service is updated to the new definition's ARN on its own cluster and name. |
| AwsService.Intersection | models/aws-service.js:109 | `_.intersection` gives the distinct common values. |
| AwsService.AsWrittenAgrees | models/aws-service.js:104-111 | While no two filter pairs read the same, the count test is the same as "every filter pair matches". |
| AwsService.MatchesAsWritten | models/aws-service.js:106-110 | The count test of `find` as written, the as-written half of the Findings row for models/aws-service.js:106-110. It has no contract of its own; `AwsService.AsWrittenAgrees` states when it agrees with `AwsService.MatchesAll`. |
| AwsService.MatchesAll | models/aws-service.js:106-110 | Every filter pair is a pair of the service, the corrected half of that Findings row. It has no contract of its own; `AwsService.Select` states that it decides which services are kept. |
| AwsService.CollidingFilterDropsMatch | models/aws-service.js:104-111 | Filter pairs `a`+`bc` and `ab`+`c` make the count test drop a service that holds both pairs. |
| AwsService.Select | models/aws-service.js:103-113 | A service is kept exactly when it is truthy and either the filter is empty or every filter pair matches. This is the intended rule of the Findings row for models/aws-service.js:106-110. The as-written count is AwsService.MatchesAsWritten. |
| AwsService.SelectOne | models/aws-service.js:103-113 | One loaded service is kept exactly when the filter keeps it. |
| AwsService.SelectAppend | models/aws-service.js:103-113 | Filtering two runs of services is filtering each in turn, so the kept services stay in load order, repeats included. |
| AwsService.Find | models/aws-service.js:101-114 | `find` fails exactly when the load fails, and otherwise keeps what `Select` keeps. This is the intended AND rule of the Findings row for models/aws-service.js:106-110. |
| AwsService.AllImpliesAny | models/aws-service.js:104-111 | A service kept by the AND filter is kept by `Instance.find`'s OR filter. |
| DockerInstance.IpField | models/docker-instance.js:19-21 | `ip` is always `127.0.0.1`. |
| DockerInstance.IdField | models/docker-instance.js:16 | `id` reads `Id`, and is null where it is missing. |
| DockerInstance.StateField | models/docker-instance.js:18 | `state` reads `State`, and is null where it is missing. |
| DockerInstance.NameField | models/docker-instance.js:22 | `name` is the first of `Names`. |
| DockerInstance.TagsField | models/docker-instance.js:24 | `tags` reads `Labels`, and is null where it is missing. |
| DockerInstance.NormalizeQuery | models/docker-instance.js:30-33 | Object and array values are JSON-encoded. Other values pass through, and the keys are kept. |
| DockerInstance.RequestOptions | models/docker-instance.js:35-39 | The socket path, `GET` and the formatted path are filled in only where the caller left them undefined. |
| DockerInstance.LastFailure | models/docker-instance.js:46 | This is the last error the stream reported, if any. |
| DockerInstance.Settle | models/docker-instance.js:47-53 | The response rejects exactly when the stream reported an error, and then with the last error reported. Otherwise it is the body parsed as JSON when it parses, and the raw body otherwise. |
| DockerInstance.ReadResponse | models/docker-instance.js:40-56 | The handlers that append chunks and record errors compute that settlement. |
| DockerInstance.Load | models/docker-instance.js:63-71 | `load` is the socket's container list, mapped. |
| DockerInstance.ByName | models/docker-instance.js:59-61 | `byName` is `find({name})`. |
| DockerInstance.CreateQuery | models/docker-instance.js:75-83 | The query asks for the sshd image and binds host port `port` to the container's port 22. |
| DockerInstance.Create | models/docker-instance.js:73-95 | A reply without `Id` fails. Otherwise it succeeds exactly when `byId` does. The result is an object holding the chosen `port`, and every other key as the instance that `byId` found has it. |
| DockerInstance.SetTagsAsWritten | models/docker-instance.js:97-106 | As written, no tags re-fetches the instance by id, and any tags reject. The reason is that `docker` is static, so `this.docker` on an instance is not a function. |
| DockerInstance.SetNameAlwaysFails | models/docker-instance.js:97-110 | As written, `setName` always rejects with that TypeError. |
| DockerInstance.SetTags | models/docker-instance.js:97-106 | With `docker` and `Map` reached through `this.constructor`, no tags re-fetches the instance by id. Any tags list all containers again and write nothing. |
| DockerInstance.SetNameOnlyReloads | models/docker-instance.js:108-110 | With the same correction, `setName` lists the containers again and never renames one. It settles where the as-written call rejects. |
| DockerInstance.SshHost | models/docker-instance.js:114 | The ssh target is `<ip>:<port>`, with port 22 unless one is recorded. |
| DockerInstance.NoPortField | models/docker-instance.js:14-26 | A mapped container has no `port`. |
| DockerInstance.LoadedSshHost | models/docker-instance.js:114 | A loaded container is reached at `127.0.0.1:22`. |
| DockerInstance.LocalSshHost | models/docker-instance.js:114 | A local-host instance without a port is reached on port 22. |
| DockerInstance.CreatedSshHost | models/docker-instance.js:114 | A created container is reached on the port that `create` chose. |
| Utils.Escape | utils/index.js:100 | A command without single quotes is unchanged. Escaping never shortens a command. |
| Utils.ReadEscaped | utils/index.js:100 | Inside single quotes, an escaped text reads as the original text. |
| Utils.QuoteRoundTrip | utils/index.js:100 | `'` + the escaped text + `'` reads, in the shell, as exactly the original text. |
| Utils.CommandList | utils/index.js:84 | A string or an array of strings is accepted, one level deep and in order. Anything else among the commands fails. |
| Utils.EscapeJoin | utils/index.js:84-101 | Escaping each command and joining with `;` is escaping the joined text. |
| Utils.SshCommand | utils/index.js:76-104 | The ssh line is the prefix, the key (default `keys/cm.pem`), the user (default `ubuntu`), the host, and the escaped commands joined with `;` in single quotes. |
| Utils.SshArgumentRoundTrip | utils/index.js:84-104 | The remote shell receives the commands joined with `;`, in order. |
| Utils.ScpCommand | utils/index.js:113-130 | An upload of a path that is neither file nor directory fails. An upload adds `-r` for a directory. A download is `scp … user@host:remote local`. |
| Utils.UploadRecursiveIff | utils/index.js:125 | An upload passes `-r` exactly when the local path is a directory. |
| Utils.ScpRun | utils/index.js:131-136 | The silenced command runs once, or twice when the first run fails, and the second outcome is final. |
| Utils.TrimNewlines | utils/index.js:53 | The result is a prefix that ends in no newline, and only newlines are removed. |
| Utils.TrimNewlinesIdempotent | utils/index.js:175 | Trimming twice is trimming once. |
| Utils.TrimDropsNewline | utils/index.js:175 | A trailing newline is trimmed away. |
| Utils.TrimAddedNewlines | utils/index.js:175 | Any number of newlines added at the end is trimmed away again. |
| Utils.LookupName | utils/index.js:151-155 | The name looked up is the host name, else the path. With neither, the call fails with "Unable to parse URL". |
| Utils.UrlToIp | utils/index.js:151-162 | A lookup error propagates. An empty answer is "Unable to resolve URL". Otherwise the result is the answer. |
| Utils.TmpName | utils/index.js:178-180 | The name is `.` + the identifier + `.tmp`. |
| Table.Columns | cli.js:78-84 | There is one column per option, in order. |
| Table.ColumnsNormalise | cli.js:78-84 | A column keeps its option's name and transform. It takes the default transform only when none was given, and normalising again changes nothing. |
| Table.Rows | cli.js:86-90 | There is one row per truthy datum, picked to the column names. |
| Table.RowsPicked | cli.js:86-90 | A row holds exactly the datum's values under the column names. |
| Table.NoTruthyNoRows | cli.js:86-90 | Data whose entries are all falsy prints no rows. |
| Table.Width | cli.js:93-102 | A column is at least as wide as its name. |
| Table.WidthBounds | cli.js:93-102 | No cell is wider than its column. The width is the name's length or some cell's length. |
| Table.ColumnWidth | cli.js:95-99 | The inner loop computes the column width. |
| Table.ColumnWidths | cli.js:93-102 | The reduce gives every option name its width, and no other key. |
| Table.HeaderCells | cli.js:105-107 | Each header cell is its option name padded to the column width. |
| Table.HeaderAligned | cli.js:105-107 | Each header cell is exactly as wide as its column and starts with the name, followed by spaces. |
| Cli.FirstExisting | cli.js:22-25 | The first candidate that exists, or nothing when none exists. |
| Cli.TemplatePreference | cli.js:16-25 | `formation.yaml` wins over `formation.yml`, which wins over `formation.json`. |
| Cli.Pems | cli.js:27-29 | This gives exactly the files whose name contains `.pem`. |
| Cli.MissingKeyWarningIff | cli.js:34-36 | The warning appears exactly when there are machines and no `.pem` file. |
| Cli.Paint | cli.js:131-133 | A value that has a colour keeps it. A new value takes the next colour of the rotation, and the colour is filed under the value. |
| Cli.FirstNewColours | cli.js:110-133 | The first new value is green and the next one is red. |
| Cli.CellStep | cli.js:125-135 | A cell's text is its padded value transformed. Only a colourised column gets a colour. |
| Cli.RowOut | cli.js:125-135 | There is one cell per column, with that text and colouring. |
| Cli.BodyOut | cli.js:121-137 | There is one row of cells per row. |
| Cli.RowCells | cli.js:125-135 | The per-cell loop that updates `colorIndex` and `colorMap` computes the row specification. |
| Cli.Body | cli.js:121-137 | The loop over the rows computes the body specification. |
| Cli.PaintRemembers | cli.js:131-133 | Painting keeps every earlier colour and files the new one. |
| Cli.RowColoursFiled | cli.js:121-135 | After a row, each colourised cell's colour is the one filed under its value. |
| Cli.BodyColoursFiled | cli.js:121-135 | After the body, each colourised cell's colour is the one filed under its value, and no earlier colour has changed. |
| Cli.ColoursConsistent | cli.js:110-134 | Equal trimmed values get equal colours. `true`, `false`, `ACTIVE` and `DRAINING` keep their preset colours. |
| Cli.CellsAligned | cli.js:93-123 | Every cell holding a value is padded to exactly the width of its header cell. |
| Cli.Print | cli.js:77-139 | The header and body that `print` produces, computed from the normalised options, the rows and the widths. |
| Cmds.WithDefaultFormation | cmds/index.js:7 | `DEFAULT_FORMATION` becomes `formation.json` only when unset or empty. Nothing else changes. |
| Cmds.DefaultFormationIdempotent | cmds/index.js:7 | Applying the default twice changes nothing more. |
| Cmds.InstallAsWritten | cmds/index.js:14 | As written, every command module gets this file's plain `print` and no formation. |
| Cmds.InstallerDropsFormation | cmds/index.js:14 | As written, the `run` command receives no formation even when one was loaded. |
| Cmds.Install | cmds/index.js:14 | There is one module per command, in order. |
| Cmds.InstallPassesThrough | cmds/index.js:14 | As intended, every module receives the caller's `print` and formation. |
| Cmds.Print | cmds/index.js:23-65 | The header and the plain body that `print` produces. |
| Cmds.PlainScalarsAligned | cmds/index.js:57-59 | A string, number or boolean cell is padded to exactly its column width. A null or undefined value gives a blank cell of that width. |
| Cmds.ArrayWithNullOverflows | cmds/index.js:39-59 | The width counts `${[null]}`, which is empty, but lodash pads the text `null`, so that cell is wider than its column. |

## Left out

- Inherited object keys: `Js.Lookup` reads own properties only, and so do `Formation.DeclaredName`, `Formation.Resolved`, `Formation.ScriptFor` and `Cli.Paint`, which use it. In the source these dictionaries are plain objects, so a name such as `constructor`, `toString`, `valueOf` or `hasOwnProperty` finds a function inherited from `Object.prototype`. For such names the source behaves differently, and the model does not capture it: `lintScripts` accepts a `__boot__` entry `constructor` (models/formation.js:60); a running instance named `toString` is filed in the registry (models/formation.js:94); `boot` and `exec` call `command` on the inherited function (models/formation.js:184, :226); and `print` throws on a cell whose text is `constructor` (cli.js:132).
- Cloud SDK calls, the Docker socket, DNS, `child_process`, `fs` and the JavaScript `vm` are I/O. Their answers are parameters of the model.
- The credential check and `process.exit` of models/aws-instance.js are start-up I/O.
- `setTimeout` delays, `waitFor` polling and the `ping` loop of utils/index.js are timing and I/O.
- `cmd`, `ping` and `read` of utils/index.js are process and file I/O. Only the newline trimming of `read` is modelled.
- Concurrency: the `Promise.all` fan-outs of `exec`, `createInstances` and `AWSInstance.load` are modelled as serial maps. In `exec`, a name without an instance throws inside the synchronous `_.map`, before any command settles, so the first such name decides the outcome, and only the commands of the names before it are recorded as started. When every name has an instance, the first failing command, in list order, decides.
- `Promise.map` is installed only when it is not already defined. The model always uses the polyfill.
- `versionService` is not modelled. It is ECS I/O, and its create branch reads `cluster` of an undefined `service`.
- `instance.command` is defined in none of these files. `exec` and `boot` call it through a `command` parameter.
- The evaluator's `wait` and `process` globals and `context.print` are left out. Each span body is an oracle that returns what it printed, given the bodies that ran before it in the same context.
- The ssh calls of models/instance.js and models/docker-instance.js pass one options object to the positional `ssh` of utils/index.js. The model keeps the utils signature, and `Instance.SshOutcome` and `DockerInstance.SshHost` state what the calls intend.
- `fromS3`, `upload`, `download`, `associateUrl`, `attachVolumeId`, `start`, `waitForRunning`, `detach`, `reattach`, `associate`, `disassociate`, `release` and `byUrl` of models/instance.js are single cloud or scp calls followed by `byId`. They have no logic beyond the request they send.
- `Formation.load` (file read and `JSON.parse`) and `fromArgs` are left out. The template enters as a parsed object whose objects repeat no key.
- JavaScript orders integer-like object keys first. Machine entries are modelled in the order of the template's property list.
- Formation.New: `_.defaultsDeep` changes the caller's template object in place. The model builds the defaulted template as a new value.
- AwsInstance.ShapeCreate: the in-place `delete` and `_.set` on `options` are modelled as a new value. The steps after the request (wait, tags, mount) are cloud I/O.
- Cli.PathJoin, Instance.JoinPath: `path.join` normalisation of `.` and `..` segments is not modelled. The names joined here contain none.
- `chalk` rendering and `console.log` are left out. A colour is a tag on a cell, and printed text is a returned string.
- The joins of the coloured body cells into one string (cli.js:136-137) are not built, because they would join chalk-rendered text. `Cli.Print` returns the painted cells row by row.
- Numbers are integers. Floating-point values and their string forms are not modelled.
- The remaining files of cmds/ and models/index.js are vorpal wiring around I/O.
- Evaluator.Evaluate: its own contract states only the number of results. Their order and the first failure are stated by Evaluator.EvaluateInOrder.
- Formation.Declared: its own contract bounds only the length. Which instances it keeps is stated by Formation.DeclaredMembers.
- Table.Width: its own contract states only that a column is as wide as its name. The upper bound and the witness cell are stated by Table.WidthBounds.
- Formation.InsertByPosition: states the result as a multiset, not as a position within the list.
- AwsService.Load: a rejected `listServices` or `describeServices` call is not modelled. Every page reply and describe answer enters as a value, so the load is stated only for the case where every SDK call succeeds.
- `.log(…)` on a promise (models/aws-instance.js:144 and 277, models/formation.js:125) is defined in none of these files. The model takes it as a pass-through that logs: it keeps the value and drops the logging.
- String lengths are counted in characters. JavaScript's `.length` counts UTF-16 code units, so widths differ for text outside the Basic Multilingual Plane (cli.js:95-99, cmds/index.js:43).
- Js.GetPath: `_.get` with a key on an array, or an index on an object, gives undefined in the model. lodash would read array properties such as `length`, or an object's numeric-string key.

## Findings

| source | as written | input that shows it | evidently intended | confidence | as-written member | corrected member |
|---|---|---|---|---|---|---|
| models/evaluator.js:73 | `_.replace(replacedCommand, js, replacement)` hands the printed text to `String.prototype.replace` as a replacement pattern, so `$$`, `$&`, `` $` `` and `$'` in it are expanded | a span `<%x%>` that prints `echo $$` leaves `echo $` | the printed text is inserted literally | high, not executed | Evaluator.ReplaceFirstAsWritten, Evaluator.DollarDollarCollapses | Evaluator.ReplaceFirst, Evaluator.AsWrittenAgreesWithoutDollar |
| models/formation.js:114-121 | `findOne` either throws, when the filter does not match exactly one instance, or returns an instance, which is always truthy; so `if (instance) return instance` always returns and no machine is ever created | a formation of one machine on an account with no instances: `findOne` throws "findOne did not find exactly 1 match." | a machine without a running instance of its name is created from its spec and its name is booted | high, not executed | Formation.CreatedAsWritten, Formation.AsWrittenNeverCreates, Formation.AsWrittenFailsOnEmptyAccount | Formation.Created, Formation.CreatedExactlyUnprovisioned, Formation.CreatesOnEmptyAccount |
| cmds/index.js:14 | the installer calls every command module with `(vorpal, print)`: its own plain `print`, and no formation, although cli.js:41 passes its colour `print` and the loaded formation | `run` (cmds/run.js:8) receives `formation` undefined, so `formation.instances()` throws | every module receives the caller's `print` and formation | high, not executed | Cmds.InstallAsWritten, Cmds.InstallerDropsFormation | Cmds.Install, Cmds.InstallPassesThrough |
| models/docker-instance.js:99-110 | `setTags` with any tags calls `this.docker(…)` and then `this.Map(…)`, but both are static members, so on an instance they are undefined and the call throws a TypeError | `instance.setName('web')` | the listing and the mapping are reached through `this.constructor`, as the empty-tags path does for `byId` | high, not executed | DockerInstance.SetTagsAsWritten, DockerInstance.SetNameAlwaysFails | DockerInstance.SetTags, DockerInstance.SetNameOnlyReloads |
| models/aws-service.js:106-110 | `find` counts the distinct pair texts shared with the filter against the number of filter keys, so two filter pairs with the same text count once | filter `{a: 'bc', ab: 'c'}` against a service holding both pairs: one shared text, two keys, and the service is dropped | a service is kept when every filter pair matches | medium, not executed | AwsService.MatchesAsWritten, AwsService.CollidingFilterDropsMatch | AwsService.MatchesAll, AwsService.AsWrittenAgrees |
