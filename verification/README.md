# Verified models of the Books code examples: schedulers, stores, chunkers and validators

The Books repository collects the code examples of several books on agents,
retrieval and Claude tooling. This project models the small, self-contained
pieces of logic inside those examples and proves properties about them:

- **Skill rule engine** (`rule_engine.dfy`, module `SkillRules`): loading the
  rule configuration with a modification-time cache. Matching a file path
  against glob include and exclude lists, and a prompt against keywords and
  regex intents. Ranking the matches by priority with a stable sort.
- **Dependency-graph schedulers** (`scheduler.dfy`, module `Scheduling`;
  `dispatcher.dfy`, module `Dispatch`): forward and reverse dependency maps,
  ready sets, Kahn's topological order, depth-first cycle detection, the task
  retry state machine, parallel layers, and priority adjustment.
- **Knowledge graph** (`knowledge_graph.dfy`, module `Knowledge`): an
  entity/relation store keyed by `(entity_type, name)` with a depth-bounded
  breadth-first path search.
- **Text chunkers** (`chunking.dfy`, module `Chunking`; `headings.dfy`,
  module `Headings`): fixed-size windows with overlap, recursive separator
  splitting, merging of small pieces, and heading sections.
- **Model registry and retraining** (`continuous_learning.dfy`, module
  `Learning`): the retrain decision, training pairs from clicks, the version
  registry with at most one production version and rollback, and canary
  traffic.
- **Metric containers** (`metrics.dfy`, module `Metrics`): labelled counters
  and gauges, the histogram percentile, the latency window of the
  performance tracker, and alert-rule evaluation.
- **Memory stores** (`short_term.dfy`, module `ShortTerm`; `session.dfy`,
  module `Sessions`): a bounded message window and a session map.
- **String validators and parser** (`code_runner.dfy`, `bash_executor.dfy`,
  `claude_md.dfy`): the forbidden-pattern scan for Python code, the command
  gate of the bash executor, and the CLAUDE.md section parser.

Shared helpers live in `wrappers.dfy` (`Option`, `Result`), `text.dfy`
(string functions with Python's meaning: `strip`, `split`, `lower`, substring
search, `join`), `ranking.dfy` (a stable descending sort by an integer key,
the model of Python's `sorted(..., reverse=True)` and of JavaScript's stable
`Array.prototype.sort`) and `graph_paths.dfy` (paths, cycles and distinct
sequences over dependency maps).

Code that changes state step by step is modelled as classes whose methods
are proved against specification functions. Pure code becomes functions and
lemmas. Libraries the code calls (glob and regular-expression matching, JSON
and YAML parsing, file-system path resolution, float parsing) become function
parameters. File, process and network I/O is left out.

## Model

| member | source | states |
|---|---|---|
| SkillRules.LoadStep | claude-code-infrastructure-in-action/code-examples/chapter-01/hooks/rule-engine.ts:46-77 | A missing file yields the default `{version: "1.0", skills: {}}` and leaves the cache alone; otherwise the cache either stays as it was or becomes exactly one entry holding the file's mtime and the returned configuration |
| SkillRules.LoadTwice | claude-code-infrastructure-in-action/code-examples/chapter-01/hooks/rule-engine.ts:61-72 | A second load of an unchanged file returns the same configuration and leaves the cache as the first load left it |
| SkillRules.LoadFresh | claude-code-infrastructure-in-action/code-examples/chapter-01/hooks/rule-engine.ts:52-76 | With an empty cache a load yields the parsed file, or the default configuration for a missing or unparsable file |
| SkillRules.RuleEngine.constructor | claude-code-infrastructure-in-action/code-examples/chapter-01/hooks/rule-engine.ts:38-41 | The engine starts with the configuration of a fresh load; the cache holds the file's mtime exactly when the file exists and parses |
| SkillRules.RuleEngine.LoadConfig | claude-code-infrastructure-in-action/code-examples/chapter-01/hooks/rule-engine.ts:46-77 | Returns the configuration and updates the cache exactly as `LoadStep` of the old cache |
| SkillRules.RuleEngine.Reload | claude-code-infrastructure-in-action/code-examples/chapter-01/hooks/rule-engine.ts:203-206 | After a reload the configuration is that of the file, whatever its mtime, and the cache is refreshed or empty |
| SkillRules.RuleEngine.GetSkillInfo | claude-code-infrastructure-in-action/code-examples/chapter-01/hooks/rule-engine.ts:196-198 | Returns a rule exactly when the name is a skill of the configuration, and then the rule stored under that name |
| SkillRules.Lookup | claude-code-infrastructure-in-action/code-examples/chapter-01/hooks/rule-engine.ts:196-198 | Looking a name up in the configuration's entries finds a rule exactly when some entry has that name |
| SkillRules.RuleEngine.IsExcluded | claude-code-infrastructure-in-action/code-examples/chapter-01/hooks/rule-engine.ts:157-167 | The loop over exclusion patterns answers true exactly when some exclusion glob matches the path |
| SkillRules.RuleEngine.MatchByPath | claude-code-infrastructure-in-action/code-examples/chapter-01/hooks/rule-engine.ts:84-105 | The loop's result is the priority sort of the names, in configuration order, whose rule is not excluded and has a matching path pattern |
| SkillRules.RuleEngine.MatchByPrompt | claude-code-infrastructure-in-action/code-examples/chapter-01/hooks/rule-engine.ts:112-152 | The loop's result is the priority sort of the names whose rule has prompt triggers and a keyword (both lower-cased) contained in the prompt or an intent regex that compiles and matches; invalid regexes are skipped |
| SkillRules.PathMatchedMembers | claude-code-infrastructure-in-action/code-examples/chapter-01/hooks/rule-engine.ts:87-101 | A name is matched by path exactly when some configuration entry of that name has a path hit |
| SkillRules.PromptMatchedMembers | claude-code-infrastructure-in-action/code-examples/chapter-01/hooks/rule-engine.ts:116-149 | A name is matched by prompt exactly when some configuration entry of that name has a prompt hit |
| SkillRules.PathMatchedUnique | claude-code-infrastructure-in-action/code-examples/chapter-01/hooks/rule-engine.ts:95-99 | Because checking a rule stops at its first matching pattern, no name occurs twice in the path matches |
| SkillRules.PromptMatchedUnique | claude-code-infrastructure-in-action/code-examples/chapter-01/hooks/rule-engine.ts:119-148 | Each rule is pushed at most once, so no name occurs twice in the prompt matches |
| SkillRules.Weight | claude-code-infrastructure-in-action/code-examples/chapter-01/hooks/rule-engine.ts:173-187 | Weights lie in 0..4, and a priority weighs 0 exactly when it is not one of critical, high, medium, low |
| SkillRules.SortByPriority | claude-code-infrastructure-in-action/code-examples/chapter-01/hooks/rule-engine.ts:172-191 | The sorted names are a permutation of the input, weights never increase along the result, and names of equal weight keep their input order |
| SkillRules.PathResult | claude-code-infrastructure-in-action/code-examples/chapter-01/hooks/rule-engine.ts:84-105 | Any permutation of the path matches, in particular the sorted result, holds a name exactly when its rule applies to the path, and holds it once |
| SkillRules.ExclusionWins | claude-code-infrastructure-in-action/code-examples/chapter-01/hooks/rule-engine.ts:88-91 | A rule whose exclusion matches the path is never in the result, whatever its path patterns |
| SkillRules.PromptResult | claude-code-infrastructure-in-action/code-examples/chapter-01/hooks/rule-engine.ts:112-152 | The prompt result holds a name exactly when its rule's keywords or intents fire, and holds it once |
| SkillRules.DefaultMatchesNothing | claude-code-infrastructure-in-action/code-examples/chapter-01/hooks/rule-engine.ts:52-55 | With the default configuration of a missing or malformed file, both matchers return nothing |
| Dispatch.DependencyGraph.constructor | mirothinker-research-agent-in-action/code-examples/chapter-04/dispatcher.py:135-137 | The graph starts with no nodes and no reverse links, and the two maps agree |
| Dispatch.DependencyGraph.AddTask | mirothinker-research-agent-in-action/code-examples/chapter-04/dispatcher.py:139-145 | The id's dependency set becomes the set of the listed ids, replacing any earlier set; a new id goes last in iteration order; the id joins the dependents of each listed id; on agreeing maps the maps still agree exactly when no earlier dependency was dropped |
| Dispatch.Link | mirothinker-research-agent-in-action/code-examples/chapter-04/dispatcher.py:144-145 | The loop adds the id to the reverse set of each dependency and changes nothing else |
| Dispatch.RelinkConsistent | mirothinker-research-agent-in-action/code-examples/chapter-04/dispatcher.py:139-145 | Re-adding an id keeps forward and reverse maps mirrored exactly when its old dependency set is contained in the new one |
| Dispatch.DependencyGraph.RemoveTask | mirothinker-research-agent-in-action/code-examples/chapter-04/dispatcher.py:147-158 | The id's entries go from both maps; it leaves the dependents of its dependencies and the dependency sets of its listed dependents; on agreeing maps the id then appears in no set at all and the maps still agree |
| Dispatch.Unlink | mirothinker-research-agent-in-action/code-examples/chapter-04/dispatcher.py:148-150 | The loop discards the id from the reverse set of each of its dependencies and changes nothing else |
| Dispatch.Detach | mirothinker-research-agent-in-action/code-examples/chapter-04/dispatcher.py:153-156 | The loop discards the id from the dependency set of each listed dependent that is a node |
| Dispatch.UnlinkConsistent | mirothinker-research-agent-in-action/code-examples/chapter-04/dispatcher.py:147-158 | On mirrored maps, `remove_task` erases the id from every set and keeps the maps mirrored |
| Dispatch.DependencyGraph.GetReadyTasks | mirothinker-research-agent-in-action/code-examples/chapter-04/dispatcher.py:160-166 | The result lists, in insertion order and each once, exactly the uncompleted tasks whose dependencies are all completed |
| Dispatch.ReadyInMembers | mirothinker-research-agent-in-action/code-examples/chapter-04/dispatcher.py:160-166 | The ready filter keeps exactly the ids not completed whose dependencies are completed, without repeats |
| Dispatch.ZeroIn | mirothinker-research-agent-in-action/code-examples/chapter-04/dispatcher.py:171 | The initial queue holds exactly the nodes of in-degree zero, in insertion order and without repeats |
| Dispatch.Seed | mirothinker-research-agent-in-action/code-examples/chapter-04/dispatcher.py:170-172 | The in-degree counts and the initial queue satisfy the loop invariant of Kahn's algorithm |
| Dispatch.Release | mirothinker-research-agent-in-action/code-examples/chapter-04/dispatcher.py:178-181 | Counting down the dependents of the emitted node either hits a dependent that is not a node (the KeyError) or keeps the queue and counts tracked; on mirrored maps it never fails and enqueues every node whose count reaches zero |
| Dispatch.Step | mirothinker-research-agent-in-action/code-examples/chapter-04/dispatcher.py:174-181 | One round emits exactly one node and keeps the loop invariant, unless a missing dependent aborts it |
| Dispatch.Kahn | mirothinker-research-agent-in-action/code-examples/chapter-04/dispatcher.py:169-186 | A returned order lists every node once; on mirrored maps it never fails with a KeyError, places each node after its dependencies, and fails only on a cycle or an unknown dependency |
| Dispatch.Drained | mirothinker-research-agent-in-action/code-examples/chapter-04/dispatcher.py:183-186 | When the queue runs dry, a full-length result is a dependency-respecting order of all nodes, and a short one means a cycle or an unknown dependency |
| Dispatch.StuckCyclic | mirothinker-research-agent-in-action/code-examples/chapter-04/dispatcher.py:183-184 | The "Circular dependency" error is justified: with nodes left unemitted and every dependency a node, the graph has a cycle |
| Dispatch.OrderedSound | mirothinker-research-agent-in-action/code-examples/chapter-04/dispatcher.py:168-188 | The partner of the order: a distinct list of all nodes, each after its dependencies, exists only when every dependency is a node and there is no cycle |
| Dispatch.DependencyGraph.GetExecutionOrder | mirothinker-research-agent-in-action/code-examples/chapter-04/dispatcher.py:168-188 | On agreeing maps the order fails exactly when the graph has a cycle or names an unknown dependency; otherwise it lists every task once, after all of its dependencies |
| Scheduling.NewTask | mirothinker-research-agent-in-action/code-examples/chapter-10/scheduler.py:39-57 | A new task has the given id and dependency list, priority 1, status pending, no retries used, a limit of 3 retries and no error |
| Scheduling.DependencyGraph.constructor | mirothinker-research-agent-in-action/code-examples/chapter-10/scheduler.py:90-93 | The graph starts with no tasks, no dependency entries and no dependents |
| Scheduling.DependencyGraph.AddTask | mirothinker-research-agent-in-action/code-examples/chapter-10/scheduler.py:95-100 | The task is stored under its id (a new id goes last in iteration order); each listed dependency is added to the id's dependency set and the id to that dependency's dependents, keeping earlier links; the two maps stay mirror images |
| Scheduling.LinkSucc | mirothinker-research-agent-in-action/code-examples/chapter-10/scheduler.py:98-100 | Linking a task to its dependency list adds exactly those dependencies to its set and the task to exactly their dependent sets |
| Scheduling.LinkMirrored | mirothinker-research-agent-in-action/code-examples/chapter-10/scheduler.py:98-100 | Adding a dependency on both sides keeps "d is a dependency of t" equivalent to "t is a dependent of d" |
| Scheduling.AddOrdered | mirothinker-research-agent-in-action/code-examples/chapter-10/scheduler.py:97 | Storing a task keeps the iteration-order list in step with the stored ids |
| Scheduling.DependencyGraph.RemoveTask | mirothinker-research-agent-in-action/code-examples/chapter-10/scheduler.py:102-116 | The task is forgotten, its dependency and dependent entries are dropped, and its id is discarded from every remaining set on both sides; the maps stay mirrored |
| Scheduling.DependencyGraph.GetDependencies | mirothinker-research-agent-in-action/code-examples/chapter-10/scheduler.py:118-120 | The dependencies of a task are exactly the ids whose dependents list it |
| Scheduling.DependencyGraph.GetDependents | mirothinker-research-agent-in-action/code-examples/chapter-10/scheduler.py:122-124 | The dependents of a task are exactly the ids that list it as a dependency |
| Scheduling.EnterNode | mirothinker-research-agent-in-action/code-examples/chapter-10/scheduler.py:135-137 | Opening the depth-first call on an unvisited node pushes it on the recursion stack and keeps the search invariant |
| Scheduling.LeaveNode | mirothinker-research-agent-in-action/code-examples/chapter-10/scheduler.py:146-147 | Closing a call whose dependencies are all finished pops it and gives it a rank above all of them |
| Scheduling.DependencyGraph.Dfs | mirothinker-research-agent-in-action/code-examples/chapter-10/scheduler.py:135-148 | The inner search reports true only when the graph has a cycle; otherwise it marks the node visited and keeps the search invariant (finished nodes ranked above their dependencies) |
| Scheduling.DependencyGraph.Visit | mirothinker-research-agent-in-action/code-examples/chapter-10/scheduler.py:139-144 | A neighbour that is unvisited is searched recursively; one still on the recursion stack is a back edge; a finished one is skipped |
| Scheduling.DependencyGraph.BackEdge | mirothinker-research-agent-in-action/code-examples/chapter-10/scheduler.py:143-144 | An edge from the top of the recursion stack back into it closes a cycle |
| Scheduling.DependencyGraph.HasCycle | mirothinker-research-agent-in-action/code-examples/chapter-10/scheduler.py:126-154 | The search from every stored task returns true exactly when the dependency relation has a cycle |
| Scheduling.KeyBeforeTotal | mirothinker-research-agent-in-action/code-examples/chapter-10/scheduler.py:174-176 | Queue entries `(-priority, task_id)` of two different ids are never tied: one comes first |
| Scheduling.KeyBeforeTransitive | mirothinker-research-agent-in-action/code-examples/chapter-10/scheduler.py:174-176 | The queue order on entries is transitive |
| Scheduling.SortByKey | mirothinker-research-agent-in-action/code-examples/chapter-10/scheduler.py:176 | Sorting the queue keeps exactly its ids |
| Scheduling.SortByKeySorted | mirothinker-research-agent-in-action/code-examples/chapter-10/scheduler.py:176 | After `queue.sort()` a queue of distinct ids is strictly ordered by priority, then id |
| Scheduling.SortedByKeyUnique | mirothinker-research-agent-in-action/code-examples/chapter-10/scheduler.py:176-188 | A strictly ordered queue is determined by its ids, so any sorting algorithm gives the same queue |
| Scheduling.InDegrees | mirothinker-research-agent-in-action/code-examples/chapter-10/scheduler.py:165-167 | The first loop counts, for each stored task, its number of dependencies |
| Scheduling.InitialQueue | mirothinker-research-agent-in-action/code-examples/chapter-10/scheduler.py:170-176 | The initial queue holds exactly the tasks without dependencies, sorted by priority, then id |
| Scheduling.DecrementStep | mirothinker-research-agent-in-action/code-examples/chapter-10/scheduler.py:183-188 | Counting down one dependent keeps the counts exact, and a dependent reaching zero joins the sorted queue |
| Scheduling.Release | mirothinker-research-agent-in-action/code-examples/chapter-10/scheduler.py:183-188 | The inner loop over the dependents of the task just emitted leaves counts and queue exact for the longer result |
| Scheduling.PopStep | mirothinker-research-agent-in-action/code-examples/chapter-10/scheduler.py:179-181 | The head of the queue is a stored task, not yet emitted, whose dependencies have all been emitted |
| Scheduling.Kahn | mirothinker-research-agent-in-action/code-examples/chapter-10/scheduler.py:179-188 | The main loop emits, each time, the first task in queue order among those ready, until none is ready |
| Scheduling.KahnDistinct | mirothinker-research-agent-in-action/code-examples/chapter-10/scheduler.py:165-190 | The topological order lists each task at most once, and only stored tasks |
| Scheduling.KahnDepsFirst | mirothinker-research-agent-in-action/code-examples/chapter-10/scheduler.py:165-190 | Every dependency of a listed task is listed earlier |
| Scheduling.KahnComplete | mirothinker-research-agent-in-action/code-examples/chapter-10/scheduler.py:165-190 | Without a cycle, and with every dependency a stored task, every task is listed |
| Scheduling.KahnUnique | mirothinker-research-agent-in-action/code-examples/chapter-10/scheduler.py:156-190 | The greedy order is determined by the graph and the priorities alone |
| Scheduling.DependencyGraph.TopologicalSort | mirothinker-research-agent-in-action/code-examples/chapter-10/scheduler.py:156-190 | Raises exactly when the graph has a cycle; otherwise returns the greedy priority order, which lists each task once after its dependencies |
| Scheduling.DependencyGraph.GetReadyTasks | mirothinker-research-agent-in-action/code-examples/chapter-10/scheduler.py:192-209 | Returns the pending tasks whose dependencies are all completed, in insertion order, stably sorted by descending priority |
| Scheduling.ReadyInMembers | mirothinker-research-agent-in-action/code-examples/chapter-10/scheduler.py:198-205 | The filter keeps exactly the stored pending tasks whose dependencies are completed |
| Scheduling.ReadyTasksMeaning | mirothinker-research-agent-in-action/code-examples/chapter-10/scheduler.py:192-209 | The ready list holds exactly the stored pending tasks whose dependencies are completed, by non-increasing priority, equal priorities in insertion order |
| Scheduling.TaskScheduler.constructor | mirothinker-research-agent-in-action/code-examples/chapter-10/scheduler.py:225-230 | A scheduler starts with an empty graph, nothing running or completed and an empty history |
| Scheduling.TaskScheduler.AddTask | mirothinker-research-agent-in-action/code-examples/chapter-10/scheduler.py:232-234 | Stores the task in the graph and links its dependencies |
| Scheduling.TaskScheduler.AddTasks | mirothinker-research-agent-in-action/code-examples/chapter-10/scheduler.py:236-239 | Adding a list of tasks stores each in turn |
| Scheduling.StoreAllLookup | mirothinker-research-agent-in-action/code-examples/chapter-10/scheduler.py:236-239 | After adding a list, an id is stored exactly when it was before or is listed; unlisted ids keep their task, and the last listed task of an id wins |
| Scheduling.TaskScheduler.GetReadyTasks | mirothinker-research-agent-in-action/code-examples/chapter-10/scheduler.py:241-248 | With no free slot the result is empty; otherwise it is the ready list cut to the number of free slots |
| Scheduling.TaskScheduler.MarkRunning | mirothinker-research-agent-in-action/code-examples/chapter-10/scheduler.py:250-254 | The task becomes running and joins the running set; nothing else changes |
| Scheduling.TaskScheduler.MarkCompleted | mirothinker-research-agent-in-action/code-examples/chapter-10/scheduler.py:256-269 | The task becomes completed, leaves the running set, joins the completed set, and one history entry is appended |
| Scheduling.TaskScheduler.MarkFailed | mirothinker-research-agent-in-action/code-examples/chapter-10/scheduler.py:271-293 | The error is recorded and retries grow by one; the task is pending again while retries stay below the limit, failed (and logged) otherwise; it leaves the running set either way |
| Scheduling.FailAllRetries | mirothinker-research-agent-in-action/code-examples/chapter-10/scheduler.py:271-293 | After k failures in a row a task has k more retries and the last error, and is pending exactly when its retries are still below the limit |
| Scheduling.DefaultRetries | mirothinker-research-agent-in-action/code-examples/chapter-10/scheduler.py:57 | With the default limit of 3, a new task survives two failures and is given up on the third |
| Scheduling.TaskScheduler.GetExecutionOrder | mirothinker-research-agent-in-action/code-examples/chapter-10/scheduler.py:366-368 | The execution order is the graph's topological sort |
| Scheduling.ReadyAmong | mirothinker-research-agent-in-action/code-examples/chapter-10/scheduler.py:382-386 | The inner loop keeps exactly the remaining tasks whose dependencies are all done |
| Scheduling.LayerStep | mirothinker-research-agent-in-action/code-examples/chapter-10/scheduler.py:392-394 | Appending the set of tasks ready after the earlier groups adds one more layer |
| Scheduling.ParallelGroups | mirothinker-research-agent-in-action/code-examples/chapter-10/scheduler.py:370-396 | Each group is non-empty and holds exactly the tasks ready once the earlier groups are done; after the last group no task is ready |
| Scheduling.TaskScheduler.GetParallelGroups | mirothinker-research-agent-in-action/code-examples/chapter-10/scheduler.py:370-396 | The groups returned are layered as `ParallelGroups` states |
| Scheduling.LayersDisjoint | mirothinker-research-agent-in-action/code-examples/chapter-10/scheduler.py:370-396 | The groups are pairwise disjoint and hold only stored tasks |
| Scheduling.LayersDepsEarlier | mirothinker-research-agent-in-action/code-examples/chapter-10/scheduler.py:370-396 | Every dependency of a task in a group lies in an earlier group |
| Scheduling.LayersComplete | mirothinker-research-agent-in-action/code-examples/chapter-10/scheduler.py:388-390 | The early stop happens only on a cycle or an unknown dependency: otherwise every task lands in some group |
| Scheduling.CountStatusSum | mirothinker-research-agent-in-action/code-examples/chapter-10/scheduler.py:434-443 | A task has one status, so the completed, failed and pending counts add up to at most the total |
| Scheduling.TaskScheduler.GetStatistics | mirothinker-research-agent-in-action/code-examples/chapter-10/scheduler.py:430-448 | Fails exactly when the graph has a cycle (the `RecursionError` of the recursion `longest_path` inside `get_critical_path`, which it calls for `critical_path_length`); otherwise reports the number of tasks, the exact counts of completed, failed and pending tasks with their sum bounded by the total, and as `parallel_groups` the number of layers of every layering of the graph |
| Scheduling.LayersAgree | mirothinker-research-agent-in-action/code-examples/chapter-10/scheduler.py:383-394 | Two layerings of one graph agree on every common prefix: each layer is fixed by the layers before it |
| Scheduling.LayeredLongest | mirothinker-research-agent-in-action/code-examples/chapter-10/scheduler.py:388-390 | A complete layering, after which no task is ready, is at least as long as any other layering |
| Scheduling.LayeredUnique | mirothinker-research-agent-in-action/code-examples/chapter-10/scheduler.py:370-396 | The complete layering is unique, so the number of parallel groups does not depend on how the groups were computed |
| Scheduling.TaskScheduler.Reset | mirothinker-research-agent-in-action/code-examples/chapter-10/scheduler.py:450-460 | Clears the running and completed sets and resets every stored task to pending, with no error and no retries |
| Scheduling.PriorityScheduler.constructor | mirothinker-research-agent-in-action/code-examples/chapter-10/scheduler.py:476-478 | A priority scheduler starts with no recorded adjustments |
| Scheduling.Clamp | mirothinker-research-agent-in-action/code-examples/chapter-10/scheduler.py:488 | `max(1, min(10, x))` lies in 1..10, equals x inside that range, and saturates outside it |
| Scheduling.PriorityScheduler.AdjustPriority | mirothinker-research-agent-in-action/code-examples/chapter-10/scheduler.py:480-489 | For a stored task the priority becomes the clamped sum and the adjustment is recorded; an unknown id changes nothing |
| Scheduling.PriorityScheduler.BoostOne | mirothinker-research-agent-in-action/code-examples/chapter-10/scheduler.py:498-502 | A stored, pending dependency gets the clamped adjustment and it is recorded; anything else leaves the tasks and the records as they were |
| Scheduling.PriorityScheduler.BoostBlockedDependencies | mirothinker-research-agent-in-action/code-examples/chapter-10/scheduler.py:491-502 | Every stored, pending dependency of the task gets its priority raised by the boost, clamped, with the boost recorded; other tasks, the links and other records are unchanged |
| Scheduling.BoostedChanges | mirothinker-research-agent-in-action/code-examples/chapter-10/scheduler.py:491-502 | Boosting keeps the stored ids, changes only priorities and only of pending dependencies, and a non-negative boost never lowers a priority in 1..10 |
| Scheduling.BoostedSnoc | mirothinker-research-agent-in-action/code-examples/chapter-10/scheduler.py:497-502 | Boosting one more dependency is one more round of the loop |
| Knowledge.KeyTypeLength | mirothinker-research-agent-in-action/code-examples/chapter-07/knowledge_graph.py:93-94 | When one type holds no colon, an equal key cannot come from a shorter type |
| Knowledge.KeyInjective | mirothinker-research-agent-in-action/code-examples/chapter-07/knowledge_graph.py:39-45 | For colon-free types, two entities share a `_entity_key` exactly when `__eq__` calls them equal |
| Knowledge.KeyCollision | mirothinker-research-agent-in-action/code-examples/chapter-07/knowledge_graph.py:93-94 | Two entities that `__eq__` tells apart, one with a colon in its type, share a key and so one dictionary entry |
| Knowledge.ChainSnoc | mirothinker-research-agent-in-action/code-examples/chapter-07/knowledge_graph.py:165-168 | A chain from the source extended by a relation leaving its end is a chain to that relation's target |
| Knowledge.StoreIndexed | mirothinker-research-agent-in-action/code-examples/chapter-07/knowledge_graph.py:96-101 | Storing an entity under its key, with an empty adjacency list for a new key, keeps the three stores consistent |
| Knowledge.AppendIndexed | mirothinker-research-agent-in-action/code-examples/chapter-07/knowledge_graph.py:113-114 | Appending a relation between stored entities to the relation list and its source's adjacency list keeps the stores consistent |
| Knowledge.LinkedLists | mirothinker-research-agent-in-action/code-examples/chapter-07/knowledge_graph.py:103-114 | Adding a relation lists both endpoints, appends exactly one entry to the source's list and leaves every other list unchanged |
| Knowledge.Register | mirothinker-research-agent-in-action/code-examples/chapter-07/knowledge_graph.py:108-111 | An endpoint is stored under its key only if the key is free; stored entities are never replaced |
| Knowledge.KnowledgeGraph.constructor | mirothinker-research-agent-in-action/code-examples/chapter-07/knowledge_graph.py:88-91 | The graph starts with no entities, relations or adjacency lists |
| Knowledge.KnowledgeGraph.GetEntity | mirothinker-research-agent-in-action/code-examples/chapter-07/knowledge_graph.py:116-119 | Answers the entity stored under `type:name`, and nothing exactly when the key is absent |
| Knowledge.KnowledgeGraph.AddEntity | mirothinker-research-agent-in-action/code-examples/chapter-07/knowledge_graph.py:96-101 | Replaces the entity under its key, creates an empty adjacency list only for a new key, keeps relations; the entity is then found by name and type |
| Knowledge.KnowledgeGraph.Endpoint | mirothinker-research-agent-in-action/code-examples/chapter-07/knowledge_graph.py:108-111 | Registers one endpoint through `add_entity` only when its key is not taken |
| Knowledge.KnowledgeGraph.Append | mirothinker-research-agent-in-action/code-examples/chapter-07/knowledge_graph.py:113-114 | Appends the relation to the relation list and its (target key, relation) entry to the source's adjacency list |
| Knowledge.KnowledgeGraph.AddRelation | mirothinker-research-agent-in-action/code-examples/chapter-07/knowledge_graph.py:103-114 | The new entities, relation list and adjacency lists are exactly the registered endpoints, the old list plus the relation, and the linked lists |
| Knowledge.FilterRelationsMembers | mirothinker-research-agent-in-action/code-examples/chapter-07/knowledge_graph.py:121-137 | A relation is in the query result exactly when it is stored and passes every given filter |
| Knowledge.FilterRelationsAppend | mirothinker-research-agent-in-action/code-examples/chapter-07/knowledge_graph.py:127-137 | Filtering preserves insertion order: the result on a concatenation is the concatenation of the results |
| Knowledge.KnowledgeGraph.GetRelations | mirothinker-research-agent-in-action/code-examples/chapter-07/knowledge_graph.py:121-137 | The loop returns the filtered relations in insertion order, and exactly those that pass every filter |
| Knowledge.ReachedStep | mirothinker-research-agent-in-action/code-examples/chapter-07/knowledge_graph.py:165-168 | Following one adjacency entry from a queued entry within the depth bound gives a queued entry for its far end |
| Knowledge.Expand | mirothinker-research-agent-in-action/code-examples/chapter-07/knowledge_graph.py:165-168 | Queues only reached entries, marks only stored keys visited, and trades each queued entry for one unvisited key |
| Knowledge.KnowledgeGraph.FindPath | mirothinker-research-agent-in-action/code-examples/chapter-07/knowledge_graph.py:139-170 | Nothing when an endpoint is unknown; the empty path when both keys are equal; otherwise any path found is a chain of stored relations from source to target no longer than `max_depth` |
| Knowledge.NeighborsMeaning | mirothinker-research-agent-in-action/code-examples/chapter-07/knowledge_graph.py:172-186 | A pair is a neighbour exactly when it comes from an adjacency entry passing the type filter, paired with the stored entity at its far end |
| Knowledge.KnowledgeGraph.GetNeighbors | mirothinker-research-agent-in-action/code-examples/chapter-07/knowledge_graph.py:172-186 | Returns the neighbours in adjacency order; each is a stored relation out of the entity to a stored entity, passing the filter |
| Chunking.WrittenStep | rag-in-action/code-examples/chapter-04/chunking_strategies.py:135-160 | One round of the fixed-size loop as written: the next start is `overlap` before the cut window's end, and the loop stops exactly when that start reaches the last character |
| Chunking.WrittenNeverStops | rag-in-action/code-examples/chapter-04/chunking_strategies.py:135-160 | With an overlap of two or more, no round on a non-empty text stops the loop, and the next start stays inside the text, so the loop never ends |
| Chunking.WrittenFixedPoint | rag-in-action/code-examples/chapter-04/chunking_strategies.py:72-81 | With the default sizes on a 600-character text, the start reaches 550 and then stays there |
| Chunking.WrittenDropsLast | rag-in-action/code-examples/chapter-04/chunking_strategies.py:155-160 | With no overlap, 10 characters in windows of 3 stop after the window ending at 9, so the last character is in no chunk |
| Chunking.FixedStep | rag-in-action/code-examples/chapter-04/chunking_strategies.py:136-153 | One window kept when not blank extends the run of numbered, increasing, covering chunks to the window's end |
| Chunking.SpansPlaced | rag-in-action/code-examples/chapter-04/chunking_strategies.py:135-140 | The windows the loop visits: the first starts where the loop starts, each lies in the text and runs `chunk_size` characters or to the end of the text, and the last ends the text |
| Chunking.SpansLinked | rag-in-action/code-examples/chapter-04/chunking_strategies.py:155-156 | Each window but the last stops short of the end of the text, and the next starts `chunk_overlap` before its end |
| Chunking.SpansNext | rag-in-action/code-examples/chapter-04/chunking_strategies.py:135-160 | Window `n` is the one the loop cuts from its current start; it is the last exactly when it reaches the end, and otherwise the next start is its end less the overlap |
| Chunking.WindowsSnoc | rag-in-action/code-examples/chapter-04/chunking_strategies.py:142-145 | One more window adds its stripped text after the texts of the windows before it |
| Chunking.KeptSnoc | rag-in-action/code-examples/chapter-04/chunking_strategies.py:144-153 | One more window adds its chunk, unless it is blank, after the chunks of the earlier windows, numbered next |
| Chunking.KeptAdvance | rag-in-action/code-examples/chapter-04/chunking_strategies.py:142-153 | Cutting window `n` turns the chunks of the first `n` windows into those of the first `n + 1` |
| Chunking.CuttingStep | rag-in-action/code-examples/chapter-04/chunking_strategies.py:135-160 | One round of the loop keeps its invariant: the chunks are those of the windows visited, numbered, increasing and covering the text up to the window's end |
| Chunking.CuttingDone | rag-in-action/code-examples/chapter-04/chunking_strategies.py:162 | After the last window the chunks are those of every window, and they cover the whole text |
| Chunking.FixedChunks | rag-in-action/code-examples/chapter-04/chunking_strategies.py:131-162 | The chunks are exactly `KeptChunks` of the windows `Spans` lists: the non-blank windows, stripped, numbered from 0; each at most `chunk_size` long, starting further right each time, and together covering every non-whitespace character of the text |
| Chunking.Chars | rag-in-action/code-examples/chapter-04/chunking_strategies.py:246-248 | `list(text)` gives one single-character string per character |
| Chunking.SplitOn | rag-in-action/code-examples/chapter-04/chunking_strategies.py:246-250 | Every cut occurs in the text; the empty separator cuts single characters |
| Chunking.Slices | rag-in-action/code-examples/chapter-04/chunking_strategies.py:238-241 | The last-resort slices are non-empty, at most `chunk_size` long and taken from the text |
| Chunking.SlicesConcat | rag-in-action/code-examples/chapter-04/chunking_strategies.py:238-241 | Concatenated again, the last-resort slices give back the text |
| Chunking.Refine | rag-in-action/code-examples/chapter-04/chunking_strategies.py:253-264 | A cut is dropped when blank, kept stripped when short and split further when long; every resulting piece is taken from the cut |
| Chunking.SplitEach | rag-in-action/code-examples/chapter-04/chunking_strategies.py:252-266 | The pieces of all cuts are non-empty, fit `chunk_size` and come from the text; stripped when the cuts fit or the empty separator remains |
| Chunking.RecursiveSplit | rag-in-action/code-examples/chapter-04/chunking_strategies.py:233-266 | Every piece of `_recursive_split` is non-empty, at most `chunk_size` long and taken from the text; with the empty separator on the ladder every piece is stripped |
| Chunking.MergeGrow | rag-in-action/code-examples/chapter-04/chunking_strategies.py:277-280 | A piece that fits joins the open group and the merge invariant holds for the next piece |
| Chunking.MergeCut | rag-in-action/code-examples/chapter-04/chunking_strategies.py:281-284 | A piece that does not fit closes the open group (kept stripped unless blank) and opens the next |
| Chunking.MergeEnd | rag-in-action/code-examples/chapter-04/chunking_strategies.py:286-289 | Closing the last group gives outputs that are stripped, no more than the pieces, fitting when the pieces fit, and joining back to the pieces |
| Chunking.RunsGreedyFrom | rag-in-action/code-examples/chapter-04/chunking_strategies.py:274-289 | From an open run that fits, the runs the loop builds cut the remaining pieces greedily |
| Chunking.RunsGreedy | rag-in-action/code-examples/chapter-04/chunking_strategies.py:268-289 | The greedy runs cut the pieces into consecutive non-empty runs of whole pieces; every run of two or more pieces fits joined with spaces, and a run ends before a piece only when that piece would not fit |
| Chunking.GreedyUnique | rag-in-action/code-examples/chapter-04/chunking_strategies.py:277-284 | The greedy grouping is unique: two groupings that both meet those cut conditions are equal |
| Chunking.GreedyMergeOf | rag-in-action/code-examples/chapter-04/chunking_strategies.py:268-289 | The merge is the stripped joins of any grouping meeting the cut conditions |
| Chunking.TrackGrow | rag-in-action/code-examples/chapter-04/chunking_strategies.py:277-280 | A piece that fits extends the open run, which stays the pieces since the last cut joined with spaces |
| Chunking.TrackCut | rag-in-action/code-examples/chapter-04/chunking_strategies.py:281-284 | A piece that does not fit closes the open run as the next greedy run and opens a run of its own |
| Chunking.TrackEnd | rag-in-action/code-examples/chapter-04/chunking_strategies.py:286-289 | Closing the last run completes the greedy merge |
| Chunking.MergeSmall | rag-in-action/code-examples/chapter-04/chunking_strategies.py:268-289 | The outputs are exactly the greedy merge: each run of consecutive whole pieces of the one greedy grouping, joined with spaces and stripped, blank runs dropped; outputs are stripped and non-empty and no more numerous than the inputs; with pieces that fit, outputs fit; with stripped pieces the outputs joined by spaces equal the pieces joined by spaces and no output would fit with the next |
| Chunking.Find | rag-in-action/code-examples/chapter-04/chunking_strategies.py:216 | `str.find`: -1 or the first occurrence at or after the start position |
| Chunking.Place | rag-in-action/code-examples/chapter-04/chunking_strategies.py:216-219 | The chunk starts at the piece's first occurrence from the search position, or at that position when there is none, and spans the piece |
| Chunking.RecursiveChunks | rag-in-action/code-examples/chapter-04/chunking_strategies.py:204-231 | The chunk texts are the greedy merge of the split pieces; chunks are stripped, non-empty, at most `chunk_size` long, numbered from 0, each placed by a search starting just after the previous chunk's start; with the empty separator on the ladder their texts joined by spaces equal the split pieces joined by spaces |
| Headings.Hashes | rag-in-action/code-examples/chapter-04/chunking_strategies.py:490 | Counts the leading `#` characters: all of them, and no more |
| Headings.MatchHeading | rag-in-action/code-examples/chapter-04/chunking_strategies.py:490-508 | A match of `^(#{1,6})\s+(.+)$` has a level from 1 to 6 and a non-empty title shorter than the line |
| Headings.MatchShape | rag-in-action/code-examples/chapter-04/chunking_strategies.py:490 | A matched line is one to six `#`, whitespace, then the title, which starts with a non-whitespace character unless it is the last character |
| Headings.ShapeMatches | rag-in-action/code-examples/chapter-04/chunking_strategies.py:490 | Every line of that shape matches, with that many `#`: the pattern accepts exactly those lines |
| Headings.HeadingNotBlank | rag-in-action/code-examples/chapter-04/chunking_strategies.py:513 | A heading line starts with `#`, so a section it opens is never blank |
| Headings.TerminatedSplit | rag-in-action/code-examples/chapter-04/chunking_strategies.py:491-530 | The lines of `text.split('\n')`, each with its newline, spell the text plus one newline, so the positions advance through that string |
| Headings.CloseStep | rag-in-action/code-examples/chapter-04/chunking_strategies.py:513-515 | Closing a non-blank open section at the current position keeps it, contiguous with the sections before it |
| Headings.OpenStep | rag-in-action/code-examples/chapter-04/chunking_strategies.py:511-524 | A heading of a wanted level closes the open section (kept only when not blank) and opens one that starts with the heading line and records its level and title |
| Headings.GrowStep | rag-in-action/code-examples/chapter-04/chunking_strategies.py:525-528 | Any other line joins the open section |
| Headings.OpenRound | rag-in-action/code-examples/chapter-04/chunking_strategies.py:507-524 | The loop state after a heading line of a wanted level is again consistent and counts one more opening line |
| Headings.GrowRound | rag-in-action/code-examples/chapter-04/chunking_strategies.py:525-530 | The loop state after any other line is again consistent |
| Headings.Advance | rag-in-action/code-examples/chapter-04/chunking_strategies.py:504-530 | One round over a line: a heading of a wanted level closes the open section (kept only when not blank) and opens its own at the current offset; any other line joins the open section; the offset moves past the line and its newline, and the loop invariant is kept |
| Headings.FinishKept | rag-in-action/code-examples/chapter-04/chunking_strategies.py:532-535 | A non-blank last section is closed at the end of the text and kept |
| Headings.FinishBlank | rag-in-action/code-examples/chapter-04/chunking_strategies.py:532-535 | A blank last section can only be the preamble, and then the whole text is blank |
| Headings.ParseHeadings | rag-in-action/code-examples/chapter-04/chunking_strategies.py:487-537 | Each section is a non-blank slice of the text plus a newline, contiguous with the next, ending at the end; only the first can be the level-0 preamble and only whitespace precedes it; every other section opens with a wanted heading line, and the heading sections start exactly at the offsets where such lines begin, in order, one per line; no sections means a blank text |
| Headings.ScanLines | rag-in-action/code-examples/chapter-04/chunking_strategies.py:504-530 | After the loop over every line, the state is consistent and the offset is one past the end of the text |
| Headings.ScanEnd | rag-in-action/code-examples/chapter-04/chunking_strategies.py:532-537 | Closing the last section, unless blank, gives the sections with every property `_parse_headings` promises |
| Headings.OpenOffsetsIff | rag-in-action/code-examples/chapter-04/chunking_strategies.py:504-530 | An offset is recorded exactly when a line that opens a section begins there (both directions) |
| Headings.OpenOffsetOf | rag-in-action/code-examples/chapter-04/chunking_strategies.py:511-522 | Every line that opens a section has its offset recorded |
| Headings.OffsetOpens | rag-in-action/code-examples/chapter-04/chunking_strategies.py:511-522 | Every recorded offset is where a line that opens a section begins |
| Headings.LineOffset | rag-in-action/code-examples/chapter-04/chunking_strategies.py:530 | The offset `current_pos` reaches before line `j` is 0 or just after a newline, and line `j` follows it |
| Headings.StartsOpen | rag-in-action/code-examples/chapter-04/chunking_strategies.py:511-522 | A heading line of a wanted level opens its section at the current offset, which is that line's offset |
| Headings.StartsGrow | rag-in-action/code-examples/chapter-04/chunking_strategies.py:523-528 | Any other line opens nothing, and the offset moves past it |
| Headings.OpenStarts | rag-in-action/code-examples/chapter-04/chunking_strategies.py:511-522 | After a heading line of a wanted level, the heading sections still start exactly at the offsets of the opening lines so far |
| Headings.TerminatedPrefix | rag-in-action/code-examples/chapter-04/chunking_strategies.py:530 | The lines before line `j` spell the text up to line `j` |
| Learning.ScheduledDueIff | rag-in-action/code-examples/chapter-13/continuous_learning.py:63-69 | The schedule never fires before any training, and otherwise fires exactly when at least the interval, in whole days of 86400 seconds, has passed |
| Learning.PerformanceDroppedIff | rag-in-action/code-examples/chapter-13/continuous_learning.py:84-100 | The performance trigger never fires without baseline metrics or with a baseline of at most 0; otherwise it fires exactly when the metric fell to at most `(1 - threshold)` times its baseline |
| Learning.ShouldRetrain | rag-in-action/code-examples/chapter-13/continuous_learning.py:122-143 | Fires exactly when one of the three checks does, and names the first that fires in the order performance, feedback volume, schedule; `(False, None)` otherwise |
| Learning.FeedbackThreshold | rag-in-action/code-examples/chapter-13/continuous_learning.py:102-120 | The feedback-volume trigger fires at exactly `min_feedback_count` new items, not one fewer, and keeps firing for any larger count |
| Learning.Unclicked | rag-in-action/code-examples/chapter-13/continuous_learning.py:286 | The unclicked documents never include the clicked one and keep every other shown document as often as it was shown |
| Learning.Prefix | rag-in-action/code-examples/chapter-13/continuous_learning.py:291 | Python's `s[:n]`: a prefix of the list, of length `n` capped at the list's, counting from the end for a negative `n` |
| Learning.NegativesShown | rag-in-action/code-examples/chapter-13/continuous_learning.py:286-291 | The negatives of a pair are shown documents and never the clicked one |
| Learning.PrepareFromClicks | rag-in-action/code-examples/chapter-13/continuous_learning.py:269-295 | One pair per click, in order, with the clicked document as positive, source `click`, and negatives drawn from the other shown documents |
| Learning.DecimalValue | rag-in-action/code-examples/chapter-13/continuous_learning.py:486 | `str(n)` is a string of decimal digits that reads back as `n` |
| Learning.VersionIdInjective | rag-in-action/code-examples/chapter-13/continuous_learning.py:486 | Different version counts give different `v{n}` ids |
| Learning.NumberedDistinct | rag-in-action/code-examples/chapter-13/continuous_learning.py:486 | Versions all numbered by `register` carry distinct ids |
| Learning.PromotedShape | rag-in-action/code-examples/chapter-13/continuous_learning.py:525-532 | After demoting every production version and promoting one, exactly that one is in production, the former production versions carry the new status, and nothing else changes |
| Learning.FindId | rag-in-action/code-examples/chapter-13/continuous_learning.py:514-519 | The first version with the id, or none when no version has it |
| Learning.FindProduction | rag-in-action/code-examples/chapter-13/continuous_learning.py:567-572 | The first production version, or none when there is none |
| Learning.NewestArchived | rag-in-action/code-examples/chapter-13/continuous_learning.py:546-553 | An archived version with the latest creation time, the first such in list order (the stable descending sort); none exactly when nothing is archived |
| Learning.ModelRegistry.constructor | rag-in-action/code-examples/chapter-13/continuous_learning.py:422-445 | The registry holds the versions loaded from its file |
| Learning.ModelRegistry.Register | rag-in-action/code-examples/chapter-13/continuous_learning.py:467-502 | Appends a candidate with id `v{n+1}` and the given fields and returns it; numbering and the single-production invariant are preserved |
| Learning.ModelRegistry.Demoted | rag-in-action/code-examples/chapter-13/continuous_learning.py:526-528 | Every production version takes the given status; nothing else changes |
| Learning.ModelRegistry.PromoteToProduction | rag-in-action/code-examples/chapter-13/continuous_learning.py:504-536 | False and no change for an unknown id; otherwise true, every production version archived and the first version with that id in production |
| Learning.ModelRegistry.Rollback | rag-in-action/code-examples/chapter-13/continuous_learning.py:538-565 | None and no change without archived versions; otherwise production versions become candidates and the newest archived version is promoted and returned |
| Learning.ModelRegistry.GetProductionVersion | rag-in-action/code-examples/chapter-13/continuous_learning.py:567-572 | Returns the first production version, and none exactly when no version is in production |
| Learning.MeanAtLeast | rag-in-action/code-examples/chapter-13/continuous_learning.py:633 | A mean is at least any lower bound of its values |
| Learning.MeanBelow | rag-in-action/code-examples/chapter-13/continuous_learning.py:633 | A mean is below any strict upper bound of its values |
| Learning.MeanAtMost | rag-in-action/code-examples/chapter-13/continuous_learning.py:648 | A mean is at most any upper bound of its values |
| Learning.Recent | rag-in-action/code-examples/chapter-13/continuous_learning.py:632 | `history[-3:]`: the last three entries, or all of them when there are fewer |
| Learning.SuccessRates | rag-in-action/code-examples/chapter-13/continuous_learning.py:633 | The success rates of the entries, in order |
| Learning.ErrorRates | rag-in-action/code-examples/chapter-13/continuous_learning.py:648 | The error rates of the entries, in order |
| Learning.Increased | rag-in-action/code-examples/chapter-13/continuous_learning.py:654-657 | `min(100.0, p + increment)` is never above 100 and is either 100 or the sum |
| Learning.AfterIncreasesClosed | rag-in-action/code-examples/chapter-13/continuous_learning.py:652-666 | With a non-negative increment, n increases from at most 100 give `min(100, p + n * increment)`, so the rollout completes once `p + n * increment >= 100` |
| Learning.CanaryDeployment.constructor | rag-in-action/code-examples/chapter-13/continuous_learning.py:586-596 | Stores the three settings, with traffic at 0 and an empty history |
| Learning.CanaryDeployment.StartCanary | rag-in-action/code-examples/chapter-13/continuous_learning.py:598-605 | Traffic goes to the initial percentage and the history is cleared |
| Learning.CanaryDeployment.RecordMetrics | rag-in-action/code-examples/chapter-13/continuous_learning.py:607-620 | Appends one entry at the current percentage; the percentage is unchanged |
| Learning.CanaryDeployment.ShouldIncreaseTraffic | rag-in-action/code-examples/chapter-13/continuous_learning.py:622-635 | Never true on an empty history |
| Learning.IncreaseWhenRecentSucceed | rag-in-action/code-examples/chapter-13/continuous_learning.py:622-635 | Traffic grows when each of the last three entries reaches the success threshold, and does not when none does |
| Learning.CanaryDeployment.ShouldRollback | rag-in-action/code-examples/chapter-13/continuous_learning.py:637-650 | Never true on an empty history |
| Learning.RollbackWhen | rag-in-action/code-examples/chapter-13/continuous_learning.py:637-650 | Rolls back when each of the last three entries has a success rate below 0.8; keeps the canary when each reaches 0.8 with an error rate of at most 0.1 |
| Learning.CanaryDeployment.IncreaseTraffic | rag-in-action/code-examples/chapter-13/continuous_learning.py:652-659 | The percentage becomes `min(100, p + increment)` and is returned; the history is unchanged |
| Learning.CanaryDeployment.CompleteRollout | rag-in-action/code-examples/chapter-13/continuous_learning.py:661-666 | True exactly when the percentage is at least 100 |
| Metrics.LabelKeyAgree | mirothinker-research-agent-in-action/code-examples/chapter-08/metrics_collector.py:66 | The label tuple depends only on the configured label names; an absent label reads as "" |
| Metrics.AddedLookup | mirothinker-research-agent-in-action/code-examples/chapter-08/metrics_collector.py:67 | Adding under one label tuple raises its reading by the amount and leaves every other tuple's reading alone |
| Metrics.Counter.constructor | mirothinker-research-agent-in-action/code-examples/chapter-08/metrics_collector.py:58-62 | A counter starts with no values |
| Metrics.Counter.Inc | mirothinker-research-agent-in-action/code-examples/chapter-08/metrics_collector.py:64-67 | Adds the value to the entry of the label tuple (from 0 when absent); every other tuple reads as before |
| Metrics.Counter.Get | mirothinker-research-agent-in-action/code-examples/chapter-08/metrics_collector.py:69-72 | The stored count of the label tuple, missing label values reading as empty; 0 for a tuple never incremented |
| Metrics.Gauge.constructor | mirothinker-research-agent-in-action/code-examples/chapter-08/metrics_collector.py:92-96 | A gauge starts with no values |
| Metrics.Gauge.Set | mirothinker-research-agent-in-action/code-examples/chapter-08/metrics_collector.py:98-101 | Overwrites the entry of the label tuple, which then reads back as the value; every other tuple reads as before |
| Metrics.Gauge.Get | mirothinker-research-agent-in-action/code-examples/chapter-08/metrics_collector.py:103-106 | The last value set for the label tuple; 0 for a tuple never set |
| Metrics.Insert | mirothinker-research-agent-in-action/code-examples/chapter-08/metrics_collector.py:152 | Inserting into a list adds exactly that value |
| Metrics.InsertAscending | mirothinker-research-agent-in-action/code-examples/chapter-08/metrics_collector.py:152 | Insertion keeps a list ascending |
| Metrics.Sort | mirothinker-research-agent-in-action/code-examples/chapter-08/metrics_collector.py:152 | `sorted` returns an ascending permutation of the observations |
| Metrics.SortCounts | mirothinker-research-agent-in-action/code-examples/chapter-08/metrics_collector.py:152 | Sorting changes neither the number of values below a threshold nor the number at most it |
| Metrics.Truncate | mirothinker-research-agent-in-action/code-examples/chapter-08/metrics_collector.py:153 | `int(x)` truncates toward zero |
| Metrics.RankIndexBounds | mirothinker-research-agent-in-action/code-examples/chapter-08/metrics_collector.py:153-154 | For a non-negative `p`, `min(int(n * p), n - 1)` is a valid index |
| Metrics.PercentileOf | mirothinker-research-agent-in-action/code-examples/chapter-08/metrics_collector.py:146-154 | 0.0 with no observations; otherwise an observation, and always a value for a non-negative `p` (a negative index below `-n` raises) |
| Metrics.PercentileRank | mirothinker-research-agent-in-action/code-examples/chapter-08/metrics_collector.py:152-154 | For a non-negative `p` the answer has rank `min(int(n * p), n - 1)`: at most that many observations lie below it and more lie at or below it |
| Metrics.PercentileMonotone | mirothinker-research-agent-in-action/code-examples/chapter-08/metrics_collector.py:146-154 | A larger non-negative `p` never gives a smaller percentile |
| Metrics.Histogram.constructor | mirothinker-research-agent-in-action/code-examples/chapter-08/metrics_collector.py:126-137 | An empty bucket list selects the default buckets; no observations |
| Metrics.Histogram.Observe | mirothinker-research-agent-in-action/code-examples/chapter-08/metrics_collector.py:139-144 | Appends the value to the list of the label tuple, creating it when absent |
| Metrics.Histogram.Percentile | mirothinker-research-agent-in-action/code-examples/chapter-08/metrics_collector.py:146-154 | 0.0 for a label tuple with no observations; otherwise one of that tuple's observations, and always a value for a non-negative `p` |
| Metrics.Newest | mirothinker-research-agent-in-action/code-examples/chapter-08/metrics_collector.py:391-393 | The newest `window_size` latencies, a suffix of the history |
| Metrics.SlideNewest | mirothinker-research-agent-in-action/code-examples/chapter-08/metrics_collector.py:391-393 | Appending then dropping the oldest when over size turns the newest window into the newest window of the longer history |
| Metrics.PerformanceTracker.constructor | mirothinker-research-agent-in-action/code-examples/chapter-08/metrics_collector.py:377-382 | Empty windows and zero counters |
| Metrics.PerformanceTracker.Record | mirothinker-research-agent-in-action/code-examples/chapter-08/metrics_collector.py:384-403 | The latency window is the newest `window_size` latencies ever recorded; a throughput is added only for positive latency and tokens; requests and errors are counted exactly |
| Metrics.Judge | mirothinker-research-agent-in-action/code-examples/chapter-08/metrics_collector.py:514-531 | A rule is skipped exactly when its condition does not split into three words; otherwise its threshold parses or raises, and it fires by its operator |
| Metrics.FiredIff | mirothinker-research-agent-in-action/code-examples/chapter-08/metrics_collector.py:533-534 | A rule is reported exactly when it is one of the rules and its verdict is to fire |
| Metrics.FirstMalformed | mirothinker-research-agent-in-action/code-examples/chapter-08/metrics_collector.py:519 | The index of the first rule whose threshold does not parse, every rule before it parsing |
| Metrics.EvaluateStep | mirothinker-research-agent-in-action/code-examples/chapter-08/metrics_collector.py:512-537 | Evaluating one more rule applies its verdict to the active alerts and the reported list |
| Metrics.MalformedExit | mirothinker-research-agent-in-action/code-examples/chapter-08/metrics_collector.py:519 | A threshold that does not parse ends the evaluation with the alerts the rules before it left |
| Metrics.CompleteExit | mirothinker-research-agent-in-action/code-examples/chapter-08/metrics_collector.py:539 | After the last rule the reported list is exactly the fired rules |
| Metrics.ActiveLast | mirothinker-research-agent-in-action/code-examples/chapter-08/metrics_collector.py:533-537 | A name is active afterwards exactly when the last rule of that name that was judged fired, and it maps to that rule |
| Metrics.ActiveUntouched | mirothinker-research-agent-in-action/code-examples/chapter-08/metrics_collector.py:533-537 | A name no well-formed rule carries keeps its active entry |
| Metrics.ActiveMatchesFired | mirothinker-research-agent-in-action/code-examples/chapter-08/metrics_collector.py:508-539 | With well-formed conditions and distinct names, the active alerts after an evaluation are exactly the rules that fired in it |
| Metrics.AlertManager.constructor | mirothinker-research-agent-in-action/code-examples/chapter-08/metrics_collector.py:504-506 | An empty rule list selects the default rules; no active alerts |
| Metrics.AlertManager.EvaluateRule | mirothinker-research-agent-in-action/code-examples/chapter-08/metrics_collector.py:514-537 | Judges one rule and adds, renews or removes its active alert accordingly |
| Metrics.AlertManager.EvaluateNext | mirothinker-research-agent-in-action/code-examples/chapter-08/metrics_collector.py:512-537 | One turn of the loop either stops at a malformed threshold or extends the loop state |
| Metrics.AlertManager.Evaluate | mirothinker-research-agent-in-action/code-examples/chapter-08/metrics_collector.py:508-539 | Returns the fired rules in order when every threshold parses, raises otherwise, and leaves the alerts as the rules before the first malformed one left them |
| Metrics.AlertManager.ActiveAlerts | mirothinker-research-agent-in-action/code-examples/chapter-08/metrics_collector.py:541-543 | Every active alert is one of the rules |
| ShortTerm.PyTail | langchain-to-deepagents-in-action/code-examples/part3-deepagents/techassist_v10/memory/short_term.py:35 | Python's `s[-n:]` is a suffix of the list; for `n <= 0` it keeps all but the first `-n` elements |
| ShortTerm.LastN | langchain-to-deepagents-in-action/code-examples/part3-deepagents/techassist_v10/memory/short_term.py:33-35 | The last `n` messages in order, none for `n <= 0`, all when there are fewer |
| ShortTerm.PyTailPositive | langchain-to-deepagents-in-action/code-examples/part3-deepagents/techassist_v10/memory/short_term.py:33-35 | For a positive count `get_recent` returns exactly the last `n` messages |
| ShortTerm.PyTailZero | langchain-to-deepagents-in-action/code-examples/part3-deepagents/techassist_v10/memory/short_term.py:33-35 | `get_recent(0)` returns every message, not none |
| ShortTerm.RenderAll | langchain-to-deepagents-in-action/code-examples/part3-deepagents/techassist_v10/memory/short_term.py:39-42 | One rendered line per message, in order |
| ShortTerm.ShortTermMemory.constructor | langchain-to-deepagents-in-action/code-examples/part3-deepagents/techassist_v10/memory/short_term.py:15-17 | A missing or zero size selects the configured default window; no messages |
| ShortTerm.ShortTermMemory.Add | langchain-to-deepagents-in-action/code-examples/part3-deepagents/techassist_v10/memory/short_term.py:19-23 | Appends the message and cuts back to the newest `max_messages`, never holding more than that |
| ShortTerm.ShortTermMemory.AddUserMessage | langchain-to-deepagents-in-action/code-examples/part3-deepagents/techassist_v10/memory/short_term.py:25-27 | Adds a human message with the content |
| ShortTerm.ShortTermMemory.AddAiMessage | langchain-to-deepagents-in-action/code-examples/part3-deepagents/techassist_v10/memory/short_term.py:29-31 | Adds an AI message with the content |
| ShortTerm.ShortTermMemory.Clear | langchain-to-deepagents-in-action/code-examples/part3-deepagents/techassist_v10/memory/short_term.py:44-46 | Leaves no messages |
| ShortTerm.ShortTermMemory.GetRecent | langchain-to-deepagents-in-action/code-examples/part3-deepagents/techassist_v10/memory/short_term.py:33-35 | A tail of the messages, newest last; the newest `n` for a positive `n`, and every message for `n == 0` as the `[-0:]` slice gives |
| ShortTerm.ShortTermMemory.ContextString | langchain-to-deepagents-in-action/code-examples/part3-deepagents/techassist_v10/memory/short_term.py:37-42 | The `messages[-5:]` slice rendered one line per message and joined by newlines: empty with no messages, a single rendered line for one |
| ShortTerm.ShortTermMemory.Length | langchain-to-deepagents-in-action/code-examples/part3-deepagents/techassist_v10/memory/short_term.py:48-49 | The number of stored messages, never above `max_messages` for a positive window |
| ShortTerm.AppendedWindow | langchain-to-deepagents-in-action/code-examples/part3-deepagents/techassist_v10/memory/short_term.py:19-23 | With a positive window, `add` keeps at most `max_messages` messages, the newest last, and they are the newest ones in order |
| ShortTerm.LastNSnoc | langchain-to-deepagents-in-action/code-examples/part3-deepagents/techassist_v10/memory/short_term.py:19-23 | The newest `n` of the newest `n` plus one more message are the newest `n` of the whole list plus that message |
| ShortTerm.AddAll | langchain-to-deepagents-in-action/code-examples/part3-deepagents/techassist_v10/memory/short_term.py:19-23 | Any sequence of `add` calls from an empty memory keeps exactly the newest `max_messages` messages added |
| ShortTerm.ContextWindow | langchain-to-deepagents-in-action/code-examples/part3-deepagents/techassist_v10/memory/short_term.py:37-42 | The context renders at most five messages, the newest last, the same as `messages[-5:]` |
| Sessions.CreatedIdempotent | langchain-to-deepagents-in-action/code-examples/part3-deepagents/techassist_v10/memory/session.py:18-25 | A second `get_or_create` with any user id changes nothing; a new record carries the first caller's user id; an existing record is returned as stored |
| Sessions.UpdatedFrame | langchain-to-deepagents-in-action/code-examples/part3-deepagents/techassist_v10/memory/session.py:31-44 | Updating an unknown id changes nothing; updating a known one keeps the ids and touches only that record |
| Sessions.DecisionsInOrder | langchain-to-deepagents-in-action/code-examples/part3-deepagents/techassist_v10/memory/session.py:41-44 | Decisions accumulate in call order |
| Sessions.OwnedByIff | langchain-to-deepagents-in-action/code-examples/part3-deepagents/techassist_v10/memory/session.py:46-51 | `list_sessions` returns exactly the stored records owned by the user |
| Sessions.SessionMemoryStore.constructor | langchain-to-deepagents-in-action/code-examples/part3-deepagents/techassist_v10/memory/session.py:15-16 | The store starts empty |
| Sessions.SessionMemoryStore.GetOrCreate | langchain-to-deepagents-in-action/code-examples/part3-deepagents/techassist_v10/memory/session.py:18-25 | Creates a fresh record only for an unknown id, records the id's insertion, and returns the stored record |
| Sessions.SessionMemoryStore.Get | langchain-to-deepagents-in-action/code-examples/part3-deepagents/techassist_v10/memory/session.py:27-29 | The stored record, and none exactly when the id is unknown |
| Sessions.SessionMemoryStore.UpdateSummary | langchain-to-deepagents-in-action/code-examples/part3-deepagents/techassist_v10/memory/session.py:31-34 | Sets the summary of a known session; an unknown id changes nothing |
| Sessions.SessionMemoryStore.UpdateTopic | langchain-to-deepagents-in-action/code-examples/part3-deepagents/techassist_v10/memory/session.py:36-39 | Sets the topic of a known session; an unknown id changes nothing |
| Sessions.SessionMemoryStore.AddDecision | langchain-to-deepagents-in-action/code-examples/part3-deepagents/techassist_v10/memory/session.py:41-44 | Appends the decision to a known session's list; an unknown id changes nothing |
| Sessions.SessionMemoryStore.Delete | langchain-to-deepagents-in-action/code-examples/part3-deepagents/techassist_v10/memory/session.py:53-58 | True exactly when the session existed; afterwards it is gone and every other session and the insertion order of the rest are kept |
| Sessions.SessionMemoryStore.ListSessions | langchain-to-deepagents-in-action/code-examples/part3-deepagents/techassist_v10/memory/session.py:46-51 | A record is listed exactly when it is stored under some session id and owned by the user |
| CodeRunner.ScanFirstRejection | langchain-to-deepagents-in-action/code-examples/part1-langchain-basics/techassist/tools/code_runner.py:57-70 | The scan accepts, answering "OK", exactly when no pattern rejects; otherwise it answers the message of the first pattern that rejects |
| CodeRunner.CheckCodeSafetyIff | langchain-to-deepagents-in-action/code-examples/part1-langchain-basics/techassist/tools/code_runner.py:51-70 | `check_code_safety` accepts exactly when no forbidden pattern occurs case-insensitively, `open(` counting only together with a write or append mode literal |
| CodeRunner.ForbiddenAnywhere | langchain-to-deepagents-in-action/code-examples/part1-langchain-basics/techassist/tools/code_runner.py:23-48 | Any forbidden name other than `open(`, anywhere in the code and in any letter case, is rejected |
| CodeRunner.RunPlan | langchain-to-deepagents-in-action/code-examples/part1-langchain-basics/techassist/tools/code_runner.py:91-97 | Code runs exactly when it is judged safe, with the timeout capped at 10 and kept when already within it; unsafe code gets the marked refusal message |
| BashExecutor.FromConfig | claude-agent-sdk-in-action/code-examples/chapter-02/tools/bash_executor.py:18-23 | Each setting is the loaded value when present, and otherwise its default: no allowed commands, no blocked patterns, `./workspace`, 30 seconds |
| BashExecutor.CommandName | claude-agent-sdk-in-action/code-examples/chapter-02/tools/bash_executor.py:40 | The command name is empty exactly for a blank command, and otherwise is where the command starts after its leading whitespace |
| BashExecutor.FirstWordStart | claude-agent-sdk-in-action/code-examples/chapter-02/tools/bash_executor.py:40 | The first word of `split()` begins where the leading whitespace ends |
| BashExecutor.FirstBlocked | claude-agent-sdk-in-action/code-examples/chapter-02/tools/bash_executor.py:47-49 | The first blocked pattern, in configuration order, that occurs in the command; none exactly when no pattern occurs |
| BashExecutor.ValidateCommand | claude-agent-sdk-in-action/code-examples/chapter-02/tools/bash_executor.py:30-55 | Valid exactly when the name is whitelisted, no blocked pattern occurs and neither `..` nor `~` appears; a reason is given exactly when invalid |
| BashExecutor.BlankCommandRejected | claude-agent-sdk-in-action/code-examples/chapter-02/tools/bash_executor.py:40-44 | A blank command is refused with the whitelist message for the empty name, unless the empty name is whitelisted |
| BashExecutor.BlockedAnywhere | claude-agent-sdk-in-action/code-examples/chapter-02/tools/bash_executor.py:47-49 | A blocked pattern anywhere in a command invalidates it, whatever surrounds it |
| BashExecutor.Precheck | claude-agent-sdk-in-action/code-examples/chapter-02/tools/bash_executor.py:73-97 | The command is run exactly when it validates and a given working directory resolves inside the resolved workspace; refusals fail with no output and code -1; a run uses the command, the configured timeout, and the workspace when no directory is given |
| ClaudeMd.KeepNameChars | claude-agent-sdk-in-action/code-examples/chapter-03/tools/claude_md_parser.py:30 | `re.sub(r'[^\w\s\-\(\)]', '', s)` keeps exactly the name characters of the string (a character occurs in the result exactly when it occurs in the string and is a name character), never lengthens it, and leaves a string of name characters unchanged |
| ClaudeMd.KeepNameCharsConcat | claude-agent-sdk-in-action/code-examples/chapter-03/tools/claude_md_parser.py:30 | The substitution works one character at a time: it distributes over concatenation |
| ClaudeMd.SectionNameClean | claude-agent-sdk-in-action/code-examples/chapter-03/tools/claude_md_parser.py:29-30 | A section name is stripped and made of name characters only, and is the heading text after `## ` with the other characters removed, then stripped |
| ClaudeMd.StripFirstRedundant | claude-agent-sdk-in-action/code-examples/chapter-03/tools/claude_md_parser.py:29-30 | Removing characters and stripping gives the same name whether or not the heading text is stripped first |
| ClaudeMd.SectionNameRoundTrip | claude-agent-sdk-in-action/code-examples/chapter-03/tools/claude_md_parser.py:26-30 | A clean name written as a `## ` heading reads back as the same name |
| ClaudeMd.Put | claude-agent-sdk-in-action/code-examples/chapter-03/tools/claude_md_parser.py:28 | Dictionary assignment: the name is present afterwards with that body, and nothing but that entry is new |
| ClaudeMd.PutDistinct | claude-agent-sdk-in-action/code-examples/chapter-03/tools/claude_md_parser.py:28 | Assignment keeps the section names distinct |
| ClaudeMd.ParseSectionsLoop | claude-agent-sdk-in-action/code-examples/chapter-03/tools/claude_md_parser.py:20-38 | The loop over the lines computes the sections the fold over the lines defines |
| ClaudeMd.FoldKeys | claude-agent-sdk-in-action/code-examples/chapter-03/tools/claude_md_parser.py:25-36 | The names stored after the loop are the names stored before, the open one, and the nonempty names of the heading lines |
| ClaudeMd.StepWellFormed | claude-agent-sdk-in-action/code-examples/chapter-03/tools/claude_md_parser.py:26-33 | One line keeps the parser state well formed: distinct clean names, stripped bodies |
| ClaudeMd.SectionsNamed | claude-agent-sdk-in-action/code-examples/chapter-03/tools/claude_md_parser.py:20-38 | The parsed sections are named exactly by the nonempty names of the `## ` lines |
| ClaudeMd.SectionsWellFormed | claude-agent-sdk-in-action/code-examples/chapter-03/tools/claude_md_parser.py:20-38 | Each section name appears once, is nonempty and clean, and names a stripped body |
| ClaudeMd.PreambleDropped | claude-agent-sdk-in-action/code-examples/chapter-03/tools/claude_md_parser.py:32-33 | Lines before the first heading are dropped |
| ClaudeMd.OneSection | claude-agent-sdk-in-action/code-examples/chapter-03/tools/claude_md_parser.py:25-36 | A heading followed by plain lines is one section holding the stripped text below the heading |
| ClaudeMd.KeyEnd | claude-agent-sdk-in-action/code-examples/chapter-03/tools/claude_md_parser.py:54 | The lazy `(.+?)` key ends at the first `**:` that leaves a character for the value |
| ClaudeMd.ItemValue | claude-agent-sdk-in-action/code-examples/chapter-03/tools/claude_md_parser.py:54 | `\s*(.+)` gives a nonempty tail of the text, with leading whitespace dropped when something else remains |
| ClaudeMd.MatchItem | claude-agent-sdk-in-action/code-examples/chapter-03/tools/claude_md_parser.py:53-56 | A matched item line starts with `- **` and gives a nonempty key and value |
| ClaudeMd.MatchItemLine | claude-agent-sdk-in-action/code-examples/chapter-03/tools/claude_md_parser.py:54-56 | An item line whose key has no `*` and whose value starts with a non-space reads back as that key and value |
| ClaudeMd.ItemsOf | claude-agent-sdk-in-action/code-examples/chapter-03/tools/claude_md_parser.py:52-55 | Only lines starting with `- **` give items, and every item key is nonempty |
| ClaudeMd.CollectLast | claude-agent-sdk-in-action/code-examples/chapter-03/tools/claude_md_parser.py:51-57 | A key is in the overview exactly when some item has it, with the value of the last such item |
| ClaudeMd.OverviewItemsIff | claude-agent-sdk-in-action/code-examples/chapter-03/tools/claude_md_parser.py:51-57 | The overview items are what the item lines say: a key is present exactly when some line gives it, with the value of the last such line |
| ClaudeMd.NameHits | claude-agent-sdk-in-action/code-examples/chapter-03/tools/claude_md_parser.py:41-42 | Which section names contain the query, ignoring case |
| ClaudeMd.FirstTrue | claude-agent-sdk-in-action/code-examples/chapter-03/tools/claude_md_parser.py:41-44 | The first matching position, and none exactly when nothing matches |
| ClaudeMd.ClaudeMdParser.constructor | claude-agent-sdk-in-action/code-examples/chapter-03/tools/claude_md_parser.py:9-12 | The parser holds the document text and the sections parsed from it |
| ClaudeMd.ClaudeMdParser.GetSection | claude-agent-sdk-in-action/code-examples/chapter-03/tools/claude_md_parser.py:40-44 | None exactly when no section name contains the query ignoring case; otherwise the body of the first that does |
| ClaudeMd.ClaudeMdParser.OverviewBody | claude-agent-sdk-in-action/code-examples/chapter-03/tools/claude_md_parser.py:47-49 | The body under the Chinese overview name when it is not empty, else the one under the English name when that is not empty, else none |
| ClaudeMd.ClaudeMdParser.ProjectOverview | claude-agent-sdk-in-action/code-examples/chapter-03/tools/claude_md_parser.py:46-58 | No items without an overview body (in particular when every section body is empty); otherwise a key is present exactly when some line of the body is an item with that key, with the value of the last such line; every key is nonempty |
| ClaudeMd.ParagraphHitsIff | claude-agent-sdk-in-action/code-examples/chapter-03/tools/claude_md_parser.py:66-73 | A hit comes from a section exactly when one of its paragraphs contains the query |
| ClaudeMd.ParagraphHitRelevant | claude-agent-sdk-in-action/code-examples/chapter-03/tools/claude_md_parser.py:68-73 | With a nonempty query, every hit names its section and counts at least one occurrence |
| ClaudeMd.SectionHitsIff | claude-agent-sdk-in-action/code-examples/chapter-03/tools/claude_md_parser.py:64-73 | A hit is collected exactly when some section body contains the query and one of its paragraphs gives that hit |
| ClaudeMd.SearchSection | claude-agent-sdk-in-action/code-examples/chapter-03/tools/claude_md_parser.py:65-73 | The inner loop gives the hits of the section's paragraphs in order, none when the body lacks the query |
| ClaudeMd.ClaudeMdParser.Search | claude-agent-sdk-in-action/code-examples/chapter-03/tools/claude_md_parser.py:60-76 | The results are the collected hits stably sorted by relevance, largest first |
| ClaudeMd.SearchOrdered | claude-agent-sdk-in-action/code-examples/chapter-03/tools/claude_md_parser.py:75 | The sort keeps every hit, leaves relevance non-increasing and keeps hits of equal relevance in document order |
| Ranking.SortDesc | claude-agent-sdk-in-action/code-examples/chapter-03/tools/claude_md_parser.py:75 | A stable sort by descending key is a permutation of its input |
| Ranking.SortDescSorted | claude-agent-sdk-in-action/code-examples/chapter-03/tools/claude_md_parser.py:75 | Its result is ordered by non-increasing key |
| Ranking.SortDescStable | claude-code-infrastructure-in-action/code-examples/chapter-01/hooks/rule-engine.ts:172-191 | Elements of equal key keep their input order |
| Ranking.SortDescOfSorted | claude-agent-sdk-in-action/code-examples/chapter-03/tools/claude_md_parser.py:75 | Sorting an already ordered list changes nothing |
| Text.Lower | langchain-to-deepagents-in-action/code-examples/part1-langchain-basics/techassist/tools/code_runner.py:57 | Lower-casing keeps the length and maps each character on its own |
| Text.Strip | claude-agent-sdk-in-action/code-examples/chapter-03/tools/claude_md_parser.py:28 | `strip()` gives a slice of the string that neither starts nor ends with whitespace, empty exactly for a blank string |
| Text.StripParts | claude-agent-sdk-in-action/code-examples/chapter-03/tools/claude_md_parser.py:28 | The string is its leading whitespace, then what `strip()` gives, then its trailing whitespace |
| Text.StripUnique | claude-agent-sdk-in-action/code-examples/chapter-03/tools/claude_md_parser.py:28 | Whitespace around a middle with non-whitespace ends (or an empty middle) is exactly what `strip()` removes, so the result is determined |
| Text.StripPadded | claude-agent-sdk-in-action/code-examples/chapter-03/tools/claude_md_parser.py:29-30 | Whitespace added around a string does not change what `strip()` gives |
| Text.JoinSplit | claude-agent-sdk-in-action/code-examples/chapter-03/tools/claude_md_parser.py:25-28 | Splitting at a separator and joining again with it gives back the string |
| Text.SplitPartsFree | claude-agent-sdk-in-action/code-examples/chapter-03/tools/claude_md_parser.py:66 | No part of `split(sep)` contains the separator |
| Text.SplitWhitespace | claude-agent-sdk-in-action/code-examples/chapter-02/tools/bash_executor.py:40 | `split()` gives nonempty words free of whitespace |
| Text.SplitWhitespaceBlank | claude-agent-sdk-in-action/code-examples/chapter-02/tools/bash_executor.py:40 | `split()` gives no word exactly when the string is blank |
| Text.SplitWhitespaceRun | claude-agent-sdk-in-action/code-examples/chapter-02/tools/bash_executor.py:40 | After leading whitespace, a maximal run of non-whitespace is the first word, and the words of the rest follow it |
| Text.CountOf | claude-agent-sdk-in-action/code-examples/chapter-03/tools/claude_md_parser.py:72 | For a nonempty query, `count` is positive exactly when the text contains the query; the empty query is counted once per position, `len + 1` times |
| Text.CountOfFirst | claude-agent-sdk-in-action/code-examples/chapter-03/tools/claude_md_parser.py:72 | `count` takes the leftmost occurrence and resumes after it: non-overlapping occurrences, left to right |
| Digraph.Erase | mirothinker-research-agent-in-action/code-examples/chapter-10/scheduler.py:108-116 | Deleting a task's entry and discarding it from every other set leaves exactly the other keys, with the task gone from every set |
| Digraph.UnlinkMirrored | mirothinker-research-agent-in-action/code-examples/chapter-10/scheduler.py:102-116 | Removing a task on both sides keeps the reverse map the exact mirror of the dependency map |
| Digraph.Without | mirothinker-research-agent-in-action/code-examples/chapter-10/scheduler.py:104-105 | Removing a key from the insertion order drops exactly that key and keeps the rest distinct |
| Digraph.CycleInClosedSet | mirothinker-research-agent-in-action/code-examples/chapter-10/scheduler.py:126-154 | A nonempty set of tasks in which each has a dependency inside the set contains a dependency cycle |
| Digraph.RankedAcyclic | mirothinker-research-agent-in-action/code-examples/chapter-10/scheduler.py:126-154 | A ranking in which every dependency has a strictly smaller rank rules out cycles |

## Left out

- Scheduling.TaskScheduler.MarkRunning: takes a task id and requires it to be scheduled, where the source takes the task object itself; the `started_at` timestamp is not modelled.
- Scheduling.TaskScheduler.MarkCompleted: takes a task id and requires it to be scheduled; the `result` value and the `completed_at` timestamp are not stored, and a history entry records only the id and the outcome, without duration or timestamp.
- Scheduling.TaskScheduler.MarkFailed: takes a task id and requires it to be scheduled; timestamps are not modelled, and a history entry keeps the id, the error and the retry count but no timestamp.
- The `is_ready`, `is_done` and `actual_duration` properties of a schedulable task are not modelled; `estimated_duration` is a float and is kept out of the model.
- `execute_all` and `_execute_task` of the task scheduler are asynchronous runs of caller-supplied coroutines and are left out; `max_concurrent` is modelled through `GetReadyTasks`, which caps the ready list by the free slots.
- `get_critical_path` (the longest dependency chain, compared by its number of tasks) is left out: which of several equally long chains it returns follows the iteration order of a Python set.
- Scheduling.TaskScheduler.GetStatistics: the `critical_path_length` entry and the float `avg_duration` and `max_duration` entries are not modelled; the recursion-limit `RecursionError` that the recursion `longest_path` inside `get_critical_path` raises on a very deep acyclic graph is not modelled, only the one a cycle causes there.
- The priority scheduler's `get_ready_tasks` is left out: it sorts on `estimated_duration`, a float.
- In the dispatcher only the dependency graph is modelled; the `Task` and `ExecutionPlan` records, the `EventBus`, the LLM-backed `TaskExecutor` and `TaskDecomposer`, and the asynchronous `Dispatcher` are network and concurrency code.
- Dispatch.DependencyGraph.GetExecutionOrder: its ordering guarantees are stated under `Consistent()` (the reverse map mirrors the dependency map), which every sequence of `AddTask` and `RemoveTask` calls preserves; outside it only the outcome shape is stated.
- Knowledge.KnowledgeGraph.FindPath: proved sound (the relations form a stored chain from source to target, no longer than the depth bound); that the breadth-first search finds a path whenever one exists within the bound, and a shortest one, is not proved.
- Knowledge.KeyInjective: entity keys are `type:name` strings and are injective only for entity types without a colon; `KeyCollision` shows two distinct entities sharing a key.
- The knowledge graph's `to_prompt` and `to_json` renderings are left out, and entity and relation properties are kept as string-to-string maps.
- Chunking.FixedChunks: requires `0 <= overlap < size`, which the source does not check; it models the loop as evidently intended (see Findings), not as written.
- Chunking.RecursiveSplit: requires a window size of at least 1, because Python's `range` with a step of 0 raises; a negative size, for which `range` yields nothing and the source returns `[]`, is excluded as well.
- Chunk metadata (the caller's dictionary and the chunker name) is not modelled; the semantic and other chunkers outside the fixed-size, recursive and heading chunkers are left out.
- Headings.MatchHeading: the regular expression's `.` is read as any character but a newline; the lines it is given come from splitting on newlines, so none holds one.
- Clock readings in the retraining and canary code are parameters counted in seconds, and the source's floats are modelled as reals.
- Learning.CanaryDeployment.ShouldIncreaseTraffic and Learning.CanaryDeployment.ShouldRollback: their own contracts state only simple consequences; `IncreaseWhenRecentSucceed` and `RollbackWhen` carry the decision rules.
- The model registry's file persistence (`_load_registry`, `_save_registry`) is left out; the registry is kept in memory.
- `prepare_from_feedback`, the model trainer and the continuous-learning pipeline are left out: they call training libraries and storage.
- Parsing an alert threshold with `float` is the parameter `parse`; `to_prometheus` and `get_stats` of the metric containers are left out (text rendering and float statistics).
- Metrics.AlertManager.ActiveAlerts: returns the set of active alert rules; the order of the source's list is not modelled.
- The Python code runner's subprocess execution and its output capture are left out; the 1 to 10 second bound of the tool's argument schema is not modelled beyond the cap.
- Text.Lower: folds ASCII letters only, where Python's `lower` and JavaScript's `toLowerCase` also fold other scripts.
- The bash executor's YAML loading becomes `FromConfig` over optional values; path resolution against the file system is the parameter `resolve`; starting the shell and `get_tool_definition` are left out.
- The CLAUDE.md parser's file loading and its `FileNotFoundError` are left out: the model starts from the text; `get_tool_definition` is left out.
- ClaudeMd.KeepNameChars: Python's `\w` is `_` and the characters `str.isalnum` accepts; `IsWordChar` reads it as ASCII letters, digits and `_` and every non-ASCII character outside whitespace and the punctuation and symbol blocks it lists, so combining marks and symbols from other blocks are kept here where Python removes them.
- The sections dictionary of the CLAUDE.md parser is kept as an ordered list of entries, with a later duplicate name replacing the value in place.
- The session store's `created_at` timestamp is a parameter, and aliasing of the returned records (the caller may mutate the stored object) is not modelled; records are values.
- A missing window size of the short-term memory is passed as 0, which the source's `or` treats like `None`; the configured default window is the constant `DefaultWindow`, fixed at the configuration's default of 20; overriding it through the environment is not modelled.
- SkillRules.RuleEngine.GetSkillInfo: the skills are a Dafny map, so a name such as `constructor` that a JavaScript object inherits from its prototype is not a skill here, where `getSkillInfo("constructor")` returns a function.
- SkillRules.Weight: a priority string is looked up in a map of the four levels only; in the source a priority such as `toString` finds an inherited function, and the comparator then returns `NaN`.
- SkillRules: glob matching, regular-expression matching and JSON parsing are parameters; console logging is left out. As written, the configuration cache is cleared before every load, so its hit branch is never taken; the model keeps the branch and proves what it returns.

## Findings

| source | as written | input that shows it | evidently intended | confidence | as-written member | corrected member |
|---|---|---|---|---|---|---|
| rag-in-action/code-examples/chapter-04/chunking_strategies.py:135-160 | Once a window reaches the end of the text, the next start is `len - overlap`; with an overlap of 2 or more this is below `len - 1`, so the loop neither exits nor advances | the default sizes (500, overlap 50) on a 600-character text: the start goes 0, 450, 550, 550, ... | stop once a window reaches the end of the text | high, not executed | Chunking.WrittenNeverStops, Chunking.WrittenFixedPoint | Chunking.FixedChunks |
| rag-in-action/code-examples/chapter-04/chunking_strategies.py:155-160 | With no overlap the loop exits when the next start is `len - 1`, before the last character is covered | a 10-character text with windows of 3: windows [0,3), [3,6), [6,9); character 9 is in none | every character lies in some window | high, not executed | Chunking.WrittenDropsLast | Chunking.FixedChunks |
| langchain-to-deepagents-in-action/code-examples/part3-deepagents/techassist_v10/memory/short_term.py:33-35 | `messages[-n:]` with `n = 0` is `messages[0:]` | `get_recent(0)` on a non-empty history returns every message | the last 0 messages, i.e. none | medium, not executed | ShortTerm.PyTailZero | ShortTerm.LastN |
