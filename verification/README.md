# AnixOps SD-WAN: a verified model

A Dafny model of the parts of the AnixOps SD-WAN control plane, gateway and agent whose promises
concern every input, every run or every reachable state:

- **Service chains** (`PopProfile`, `ServiceChain`, `ServiceChainAcceptance`, `ServiceChainMeaning`,
  `ServiceChainRouting`): a POP
  profile is compiled to nftables marking rules, fwmark policy rules and default routes. The rendered
  rules run on a small machine (packet mark, conntrack mark, rule list, routing tables) and are compared
  with the profile read as "the first matching route wins".
- **Signed delivery** (`Envelope`, `Delivery`, `DeliveryAcceptance`): what is signed, what is accepted, and over whole runs.
- **Policy** (`Policy`, `PolicyMeaning`): the engine, the classifier and rule-bundle merging.
- **Gateway** (`Gateway`, `GatewayRollback`, `GatewayPlan`, `GatewayAgreement`, `GatewayShadowing`,
  `GatewayPlanRollback`, `GatewayPlanMeaning`, `GatewayEndToEnd`): observations are planned into route rules, applied command by command on a fallible host and rolled back.
- **Edge rate limiter** (`RateLimit`), **transport switch** (`Transport`), **telemetry queue**
  (`Telemetry`), **sync backoff** (`Backoff`), **configuration sync** (`ConfigSync`).
- **Certificates** (`Der`, `Authority`): lifecycle, CRL, OCSP and DER lengths (sections 8.1.3 and 10.1 of
  ITU-T X.690; certificate status as in section 2.2 of RFC 6960 and CRL entries as in section 5 of RFC 5280).
- **Control store** (`Store`, `StoreReadBack`, `StoreDurability`): the repository in memory, written through to a file.
- `Text`, `Sorting` and `Network` hold what the components share.

Failures of runners, process starters, pushes, saves and cryptography are inputs of each step, so every
theorem holds whichever of them fail. Times are integers, with 0 for Go's zero time. `net.ParseCIDR`,
`net.ParseIP`, hashes, signatures and JSON are function-valued fields of the records `Net`, `Crypto`,
`TimeCodec` and `Lib`: theorems quantify over all such functions, and a fact about one is an explicit
hypothesis (`ColonMeansV6`, `HostLaws`, `CidrTextIsTrimmed`, `Lossless`, `RefusesNonFinite`, `Ideal`,
`ToTheSecond`, `Settled`). `strings.TrimSpace` may be any
idempotent function that keeps the empty string; `Text.TrimLaws` shows that it is one.

The functions and predicates a method is specified by are pinned down in their own right: what they accept
and what they yield is stated field by field, in terms a caller knows, in the modules whose names end in
`Acceptance`, `Meaning` and `ReadBack` and beside the components themselves.

Where a promise is false of the code, the code is kept and the exact condition is proved:

- a rollback restores the host exactly when the route commands that ran form whole rules with routes of
  their own and these rules are the first to be deleted (`GatewayRollback.RollbackRestoresExactly`); when no
  two rules compare equal that means none had run, or all had and no two share a destination and table
  (`GatewayRollback.ReversibleWithoutTies`). Applying a configuration again that is already in force fails,
  and its rollback tears the earlier application down (`GatewayRollback.FailedReapplyTearsDown`);
- planned routing agrees with the policy engine exactly when observations of one address agree with each
  other and no matched address is shadowed by the duplicate key (`GatewayAgreement.ObservedAgreement`); node
  ids without `|` never shadow (`GatewayAgreement.NoBarsNoShadows`), and with them observations exist that do
  (`GatewayShadowing.BarsShadowAnAddress`);
- for CIDR-only policies the gateway agrees with the engine exactly when no rule covers the address or the
  highest- and the lowest-ranked covering rules lead to one table (`GatewayAgreement.PolicyAgreementIff`,
  `GatewayAgreement.OverlapDisagrees`);
- a config bundle is selected whatever the list order exactly when a single bundle is both the newest and the
  one with the greatest version text (`ConfigSync.SelectionIgnoresOrderIff`, `ConfigSync.VersionTextMisleads`);
- after a sync the config watch is quiet exactly when the trimmed device id is not blank and what is selected
  for it, if anything, has the trimmed version reached (`ConfigSync.Converges`,
  `ConfigSync.BlankIdIsNeverQuiet`);
- OCSP and the CRL name the revocation time exactly when it is a whole second, and otherwise
  the start of its second (`Authority.ViewsAgree`, `Authority.FractionIsDropped`);
- OCSP reports a listed certificate as revoked exactly when its tenant id has no blank edges
  (`Authority.BlankTenantIsHiddenFromOCSP`);
- an evaluation's selection reported as applied is active exactly when it did not find the runtime's own
  protocol selected with no transport active (`Transport.AppliedIsActiveIff`,
  `Transport.FailedSwitchShowsADeadTransport`);
- a plan that sends two addresses to one egress can never be rolled back once fully applied
  (`GatewayPlanRollback.SharedEgressCannotBeRolledBack`);
- a report with an infinite or NaN metric passes validation and stops every later save until a restart
  (`StoreDurability.NonFiniteMetricStopsSaves`);
- audit logs keep to existing tenants exactly as long as the callers of `RecordAuditEvent` do
  (`StoreDurability.AuditedTenantsExistIff`).

Check the project with `dafny verify dfyconfig.toml` (Dafny 4.11).

## Model

| member | source | states |
|---|---|---|
| PopProfile.ValidateHopList | internal/controlcontract/profile.go:305-318 | the one-pass check with a seen-set accepts exactly the lists of non-blank hops that are pairwise distinct after trimming |
| PopProfile.ValidatePolicy | internal/controlcontract/profile.go:201-303 | accepts exactly the policies with ids, no direct fallback, a valid selector, a non-empty valid hop list and valid return hops |
| PopProfile.ValidateProfile | internal/controlcontract/profile.go:169-192 | accepts exactly the profiles with ids and at least one route, all routes valid and their trimmed ids pairwise distinct |
| ServiceChain.TargetsByPOPID | internal/linuxgw/service_chain.go:279-319 | succeeds iff every trimmed target is usable and POP ids and tables are pairwise distinct, and then holds exactly the trimmed targets under their own POP ids |
| ServiceChain.ValidateRoute | internal/linuxgw/service_chain.go:321-362 | accepts exactly the routes with ids, a foreign first hop, positive mark and preference, the selector's own family, valid return hops and a usable target of that hop and family |
| ServiceChain.ValidatePlan | internal/linuxgw/service_chain.go:143-178 | accepts exactly the plans of valid routes with pairwise distinct marks and preferences in which a shared family and table means a shared target |
| ServiceChain.CompileRoute | internal/linuxgw/service_chain.go:77-125 | one round succeeds iff the route is routable (no overflow, foreign first hop with an unreserved target of the selector's family), and yields its compiled form |
| ServiceChain.CompileRoutes | internal/linuxgw/service_chain.go:76-125 | the loop succeeds iff every route is routable, and compiles each at its own index |
| ServiceChain.Compile | internal/linuxgw/service_chain.go:58-136 | compilation succeeds iff the checks before the closing self-check pass, which `ServiceChainAcceptance.CompileSucceedsIff` spells out; the plan then is the compiled form of the profile, route by route, and valid |
| ServiceChain.SelfCheckNeverFails | internal/linuxgw/service_chain.go:77-136 | every plan the earlier checks let through is valid (positive, pairwise distinct marks and preferences; same table, same target) and collides with no existing rule's mark, preference or table |
| ServiceChainAcceptance.SelectorFamilyIff | internal/linuxgw/service_chain.go:379-425 | a selector compiles to a family iff it has no domain suffix or class, names at least one CIDR, every CIDR it names parses to a prefix of that family, its protocol is tcp, udp or none, and ports come with a protocol and a proper range |
| ServiceChainAcceptance.ValidSelectorIff | internal/controlcontract/profile.go:226-285 | a selector is valid iff every part it gives is well-formed and it gives some part |
| ServiceChainAcceptance.CompileSucceedsIff | internal/linuxgw/service_chain.go:58-136 | field by field, the profiles, targets and options that compile: names, chains, interfaces, tables, bases, and per route a usable target of its first hop and family that takes nothing in use |
| ServiceChainAcceptance.OptionsIff | internal/linuxgw/service_chain.go:233-261 | which options are taken and what they are normalised to, with the defaults 4000 and 14000 |
| ServiceChainAcceptance.PlanIsNumbered | internal/linuxgw/service_chain.go:76-136 | the compiled routes carry the profile's own names, hops and selectors and are numbered from the two bases |
| ServiceChainMeaning.RenderNftables | internal/linuxgw/service_chain.go:180-208 | renders exactly the valid plans, as the restore rule followed by one marking rule per route in order |
| ServiceChainMeaning.MarkRuleMatches | internal/linuxgw/service_chain.go:189-203 | a rendered rule fires exactly on tracked ingress packets of unmarked connections the selector matches, and then sets both marks |
| ServiceChainMeaning.MarkRulesFirstMatch | internal/linuxgw/service_chain.go:189-204 | the marking rules together are first match: the first route whose selector matches decides, because firing switches the later rules off |
| ServiceChainMeaning.ChainMeansEffect | internal/linuxgw/service_chain.go:185-206 | the effect of the whole rendered chain on any packet, tracked by conntrack or not, and any marks |
| ServiceChainRouting.RenderIPRouteCommands | internal/linuxgw/service_chain.go:210-226 | renders exactly the valid plans: one default route per family and table, before its first use, and one policy rule per route |
| ServiceChainRouting.CommandsInstall | internal/linuxgw/service_chain.go:210-226 | on a kernel that uses none of the plan's marks every rendered command succeeds, adding exactly the plan's rules and default routes |
| ServiceChainRouting.PlanRulesOnKernel | internal/linuxgw/service_chain.go:501-507 | the policy rules on the kernel afterwards are the old ones and per route its family, mark, table and preference |
| ServiceChainRouting.MarkForwards | internal/linuxgw/service_chain.go:486-507 | once the commands ran, a packet with a route's mark leaves through that route's target and nowhere else |
| ServiceChainRouting.CompilerCorrect | internal/linuxgw/service_chain.go:58-226 | for everything that compiles, a new ingress packet reaches the transport target of the first hop of the first matching profile route; if none matches both marks are unchanged |
| ServiceChainRouting.ConnectionMark | internal/linuxgw/service_chain.go:188-203 | over any run of packets a connection's mark is its first non-zero mark: the one it had, or that of the first route matching its first entering packet |
| ServiceChainRouting.Affinity | internal/linuxgw/service_chain.go:188-203 | once a connection is marked, no later packet of any run changes the mark, and every established or related packet of it carries the mark |
| ServiceChainRouting.EstablishedReachOneTarget | internal/linuxgw/service_chain.go:188-226 | a marked connection carries the mark of one route, and all its established or related packets of that route's family leave through that route's target |
| ServiceChainRouting.RepeatedNewPacketKeepsItsMark | internal/linuxgw/service_chain.go:188-203 | a repeated packet still in state new is not given its connection's mark, so affinity cannot be claimed for it |
| Envelope.DecodeEncode | internal/controlcontract/envelope.go:353-364 | length-prefixed fields of any number and any length below 2^32 decode back to themselves |
| Envelope.SigningInputV1 | internal/controlcontract/envelope.go:320-346 | succeeds iff the metadata is valid and each field fits 32 bits; the buffer decodes to exactly the eleven fields |
| Envelope.SigningInputInjective | internal/controlcontract/envelope.go:320-364 | equal signing inputs imply equal metadata and equal payload digests |
| Envelope.Verify | internal/controlcontract/envelope.go:293-318 | accepts iff key, algorithm, metadata, digest and signature check out, the envelope is unexpired now (at the current time if none is given) and bound to its profile |
| Envelope.AuthenticWasSigned | internal/controlcontract/envelope.go:293-318 | under ideal signatures an authentic envelope has the metadata and payload digest of one that was signed |
| DeliveryAcceptance.SignedFieldsAre | internal/controlcontract/envelope.go:320-346 | the eleven signed fields in order |
| DeliveryAcceptance.PrefixIs | internal/controlcontract/envelope.go:353-364 | a field is preceded by its length in four octets, most significant first |
| DeliveryAcceptance.VerifiedIff | internal/controlcontract/envelope.go:293-318 | an envelope verifies iff its metadata is complete, the key's signature is on its fields, its digest is the payload's, it is bound to its profile and unexpired, each spelled out |
| Delivery.Prepare | internal/linuxgw/service_chain_delivery.go:38-90 | accepts iff the envelope verifies, is a POP bundle for this POP with a higher sequence, and its profile compiles; returns its metadata and compiled, valid plan |
| DeliveryAcceptance.AcceptedIff | internal/linuxgw/service_chain_delivery.go:38-90 | a POP accepts exactly the deliveries that verify, are POP bundles addressed to it with a higher sequence than the last, and carry a profile the compiler takes |
| DeliveryAcceptance.FreshDeliveryIsAccepted | internal/linuxgw/service_chain_delivery.go:38-90 | over a run such a delivery is accepted whatever was tried before, if its sequence is higher than all of them |
| Delivery.BindingImpliesPrincipal | internal/linuxgw/service_chain_delivery.go:38-90 | the envelope's binding already guarantees the principal check of the compiler |
| Delivery.RunAcceptsOnlyGenuine | internal/linuxgw/service_chain_delivery.go:38-90 | over every run that feeds back the last sequence, under ideal signatures, only unexpired envelopes signed for this POP are accepted, with strictly rising sequence numbers |
| Policy.NewEngine | internal/policy/policy.go:71-85 | succeeds iff every rule is valid; the engine is a sorted permutation of the rules |
| Policy.Evaluate | internal/policy/policy.go:87-106 | the search loop returns the decision of the first applying rule |
| PolicyMeaning.DomainMatchesIff | internal/policy/policy.go:137-144 | a domain matches a suffix iff the dot-separated labels of the normalised suffix are the last labels of the normalised domain |
| PolicyMeaning.LabelBoundary | internal/policy/policy.go:137-144 | a rule for example.com does not apply to evilexample.com |
| PolicyMeaning.AppliesIff | internal/policy/policy.go:87-135 | a rule applies iff it is the tenant's, has a condition, and each of its domain, address, ASN and class conditions holds |
| PolicyMeaning.SingleConditionDecides | internal/policy/policy.go:108-135 | a policy of one rule with one condition matches exactly the requests that meet it |
| PolicyMeaning.EngineTakesRule | internal/policy/policy.go:31-50 | a rule is valid iff it has three names, a condition, and a CIDR that parses if any |
| PolicyMeaning.DecisionIsTopRule | internal/policy/policy.go:71-106 | the decision carries id and egress of an applying rule that every other applying rule ranks below by priority then id, and the request's own class if it has one |
| Policy.EngineIsArgmax | internal/policy/policy.go:71-106 | sort then first match equals the single-pass argmax by priority then id, ties included; it matches iff some rule applies |
| Policy.DecisionUnique | internal/policy/policy.go:71-106 | without ties, a rule is chosen iff it applies and none before it does |
| Policy.DecisionIgnoresOrder | internal/policy/policy.go:71-106 | without ties the decision is the same for every permutation of the rules |
| Policy.Fill | internal/policy/bundle.go:45-56 | a filling loop succeeds iff the rules are valid and overlays the last rule of each id |
| Policy.MergeRules | internal/policy/bundle.go:43-69 | succeeds iff all rules are valid; the sorted result lists the id-wise overlay, each id once |
| Policy.MergedDecidesOverlay | internal/policy/bundle.go:43-69 | evaluating merged rules equals evaluating the id-wise overlay of updates over base |
| PolicyMeaning.IndexIsLast | internal/policy/bundle.go:45-56 | under each id that occurs the overlay holds the last rule with that id |
| Policy.Classify | internal/policy/classifier.go:41-88 | keeps a given class, else takes the class of the best applying classification rule, else the default |
| PolicyMeaning.ClassAppliesIff | internal/policy/classifier.go:69-90 | a classification rule applies iff it has a condition and each of its domain, address and ASN conditions holds |
| PolicyMeaning.ClassIsTopRule | internal/policy/classifier.go:57-67 | a request keeps its class, else takes that of an applying rule every other ranks below, else the default |
| Gateway.SortedRouteRules | internal/linuxgw/config.go:214-229 | a permutation sorted by preference and name, in either direction |
| Gateway.RenderIPRouteCommands | internal/linuxgw/config.go:155-176 | per rule in order: the policy rule, then the route |
| Gateway.RenderIPRouteRollbackCommands | internal/linuxgw/config.go:178-198 | per rule in reverse order: the route's deletion, then the policy rule's |
| GatewayEndToEnd.SortOrderIs | internal/linuxgw/config.go:214-229 | rules are ordered by preference and then name, and the other way for rollback |
| GatewayEndToEnd.RouteCommandsAre | internal/linuxgw/config.go:155-198 | the two commands of each rule and the two that undo it, with mark, table, preference, destination, gateway and interface |
| GatewayEndToEnd.MarkingKeeps | internal/linuxgw/config.go:98-109 | the loaded table holds exactly the rules that match something |
| GatewayEndToEnd.MarkingKeepsChain | internal/linuxgw/config.go:91-117 | and marks packets as the whole rule list does |
| Gateway.Runner.Rollback | internal/linuxgw/apply.go:24-38 | deletes the table, undoes the routes and reloads, stopping at the first error |
| Gateway.Runner.Apply | internal/linuxgw/apply.go:40-97 | the host afterwards is that of the commands run until the first error, rolled back iff asked for and something was applied |
| Gateway.Runner.RunForward | internal/linuxgw/apply.go:71-86 | loads nftables, runs the route commands and reloads dnsmasq until the first error, and says whether anything was applied |
| GatewayEndToEnd.AppliedHost | internal/linuxgw/apply.go:71-87 | without outages, on a host without the table whose kernel takes the route commands, the application succeeds and leaves the marking table and the routed kernel |
| GatewayRollback.UpRuns | internal/linuxgw/config.go:155-176 | on a host without these rules and routes every route command succeeds, provided no destination has bits below its prefix |
| GatewayRollback.UpPrefix | internal/linuxgw/apply.go:76-80 | the rules and routes present after any prefix of the route commands |
| GatewayRollback.FullyUndone | internal/linuxgw/config.go:178-212 | when every route command ran and destination/table pairs are distinct, the deletions, in any order of the rules, all succeed and give back the prior kernel |
| GatewayRollback.UndoneExactly | internal/linuxgw/config.go:155-212 | the deletions give back the prior kernel iff the applied commands are whole rules, with distinct destination/table pairs, that are the first to be deleted |
| GatewayRollback.RollbackRestoresExactly | internal/linuxgw/apply.go:24-97 | for any failure point and any orders the two sorts may leave, the rollback restores the prior host iff the applied route commands are reversible in that sense |
| GatewayRollback.ReversibleWithoutTies | internal/linuxgw/config.go:214-229 | when no two rules compare equal, that is iff no route command had run, or all had and destination/table pairs are distinct |
| GatewayRollback.TiedRulesCanBeReversed | internal/linuxgw/config.go:214-229 | with rules equal in preference and name a half-applied configuration can be reversible |
| GatewayRollback.FailedReapplyTearsDown | internal/linuxgw/apply.go:40-97 | applying again a configuration in force fails at the first policy rule, and the rollback removes everything the first application had put up |
| GatewayPlanRollback.SharedEgressSharesRoute | internal/linuxgw/observation_plan.go:55-72 | a plan for two observed addresses of one family with one egress has distinct policy rules but writes one route twice |
| GatewayPlanRollback.SharedEgressCannotBeRolledBack | internal/linuxgw/apply.go:24-97 | once such a plan is fully applied and only the reload fails, its rollback never restores the host |
| GatewayPlan.TargetsByNode | internal/linuxgw/egress_plan.go:90-104 | succeeds iff every target is valid and trimmed node ids are pairwise distinct; holds exactly the trimmed targets |
| GatewayPlan.Resolve | internal/linuxgw/observation_plan.go:34-51 | one observation fails, plans nothing or plans the egress of the policy's decision on the canonical, classified request |
| GatewayPlanMeaning.DecisionForIs | internal/linuxgw/observation_plan.go:34-44 | an observation is decided on its canonical address and, with a classifier, on its classification |
| GatewayPlanMeaning.EntryForIs | internal/linuxgw/observation_plan.go:34-51 | it fails iff its address does not parse or the node decided for is no target, plans nothing iff unmatched, and else plans that target for that address |
| GatewayPlan.CollectEntries | internal/linuxgw/observation_plan.go:34-51 | succeeds iff every observation resolves, and collects what each plans in order |
| GatewayPlan.Number | internal/linuxgw/observation_plan.go:51-73 | drops repeated keys and numbers the rest consecutively |
| GatewayPlanMeaning.PlannedOnce | internal/linuxgw/observation_plan.go:51-56 | no rule, address and node are planned twice |
| GatewayPlanMeaning.PlannedRuleIs | internal/linuxgw/observation_plan.go:58-73 | mark, preference, table, gateway, interface, match and destination of every planned rule |
| GatewayPlanMeaning.PlannedNameIs | internal/linuxgw/observation_plan.go:95-109 | planned names are two non-empty parts without separators or dashes at their ends |
| GatewayPlanMeaning.PlannedByTenantThenAddress | internal/linuxgw/observation_plan.go:77-86 | observations are planned by tenant and then by address text |
| GatewayPlan.PlanObserved | internal/linuxgw/observation_plan.go:12-75 | fails iff options, targets, rules or an observation are unusable, and otherwise returns the numbered plan of the sorted observations |
| GatewayPlanMeaning.PlanOptionsIff | internal/linuxgw/egress_plan.go:106-127 | which options are taken and what they become, with the defaults 1000, 10000 and 0.0.0.0/0 |
| GatewayPlanMeaning.EgressesIff | internal/linuxgw/egress_plan.go:25-38 | which targets are taken |
| GatewayPlanMeaning.PlanningSucceedsIff | internal/linuxgw/observation_plan.go:12-75 | planning succeeds iff options, targets and rules are usable, every address parses and every matched observation's egress node is a target |
| GatewayPlan.PlanPolicy | internal/linuxgw/egress_plan.go:47-88 | succeeds iff options, targets and rules are valid and every egress is known; ranks the policy rules and gives each its egress node's route |
| GatewayEndToEnd.PolicyRouteRuleIs | internal/linuxgw/egress_plan.go:73-87 | every field of the route rule planned for a ranked policy rule |
| GatewayEndToEnd.PolicyPlanForwards | internal/linuxgw/egress_plan.go:47-88 | end to end: a planned policy, sorted, rendered and applied, sends a LAN packet out through the gateway and interface of the lowest-ranked rule covering its destination, and nowhere else |
| GatewayAgreement.PolicyChainIsLastMatch | internal/linuxgw/config.go:91-117 | the rendered policy_mark chain is last match: on the LAN interface each matching rule overwrites the mark |
| GatewayAgreement.NumberedRoutes | internal/linuxgw/observation_plan.go:51-73 | planned rules route an address by the last entry planned for it, and leave every other address unmarked |
| GatewayAgreement.KeyTextInjective | internal/linuxgw/observation_plan.go:51-56 | without bars in node ids, equal duplicate keys mean the same rule, address and node |
| GatewayAgreement.ObservedAgreement | internal/linuxgw/observation_plan.go:12-75 | the planned marks send every observation to the table of the egress the engine chose iff observations of one address agree and every matched address keeps an entry no earlier entry of another address shares the key of; addresses without a matched observation stay unmarked |
| GatewayAgreement.NoBarsNoShadows | internal/linuxgw/observation_plan.go:51-56 | without bars in node ids every matched address keeps such an entry |
| GatewayAgreement.OverflowedMarkIsRefused | internal/linuxgw/config.go:64-89 | a planned mark that overflows 64 bits makes its rule invalid |
| GatewayShadowing.BarsShadowAnAddress | internal/linuxgw/observation_plan.go:51-56 | for any two addresses there are observations, rules and targets with bars in their ids that plan without error and are consistent, and yet the plan disagrees with the engine |
| GatewayAgreement.PlannedOrderIsKept | internal/linuxgw/config.go:214-229 | the gateway's sort leaves planned rules in planning order |
| GatewayAgreement.PlannedHop | internal/linuxgw/observation_plan.go:55-72 | after the route commands ran, an address leaves through the egress of the last entry planned for it, and nowhere else |
| GatewayAgreement.ObservedTrafficLeavesAsDecided | internal/linuxgw/observation_plan.go:12-75 | end to end: the plan, sorted, rendered and applied by the gateway, sends a LAN packet to an observed IPv4 address out through the egress the policy decided for the observation, and nowhere else; a packet to an address no matched observation mentions keeps its marks |
| GatewayEndToEnd.AppliedPlanForwardsAsDecided | internal/linuxgw/apply.go:40-87 | the same on the host an application leaves: the chain of the table it holds, then its kernel |
| GatewayAgreement.PolicyPlanTakesLowest | internal/linuxgw/egress_plan.go:47-88 | a planned policy sends an address to the egress of the lowest-ranked rule covering it |
| GatewayAgreement.PolicyAgreementIff | internal/linuxgw/egress_plan.go:47-88 | for CIDR-only rules the gateway sends an address where the engine would iff no rule covers it, or the highest- and the lowest-ranked covering rules lead to the same table |
| GatewayAgreement.DisjointPoliciesAgree | internal/linuxgw/egress_plan.go:47-88 | in particular they agree wherever at most one rule covers the address |
| GatewayAgreement.OverlapDisagrees | internal/linuxgw/egress_plan.go:47-88 | for two overlapping rules of different priority and table the gateway takes the lower and the engine the higher |
| RateLimit.WindowLimiter.Allow | internal/edge/edge.go:68-83 | the answer and the whole new counter map |
| RateLimit.KeysAreIndependent | internal/edge/edge.go:68-83 | over every run, a key's counter and admissions are those of a limiter that saw only that key |
| RateLimit.SlidingWindowBound | internal/edge/edge.go:54-83 | with a steady clock every half-open interval one window long admits at most 2*limit-1 requests per key |
| RateLimit.RefusedOnlyWhenFull | internal/edge/edge.go:68-83 | a request is refused only if `limit` requests of its key were admitted within the last window |
| RateLimit.BoundIsReached | internal/edge/edge.go:68-83 | for every limit and window above one some run admits exactly 2*limit-1, so the bound is tight |
| Transport.Supervisor.StopLocked | internal/transport/supervisor.go:258-276 | success iff the process and the stop command both stop; fields are cleared only then, and the transport is down only if something could stop it |
| Transport.Supervisor.StartLocked | internal/transport/supervisor.go:229-256 | a successful start runs the transport and records it as active; a failed one changes nothing |
| Transport.Supervisor.Activate | internal/transport/supervisor.go:184-217 | stop, start and restore with any failures: the whole new state and when it succeeds |
| Transport.ActivationOutcome | internal/transport/supervisor.go:184-276 | in every reachable state with p active, asking for another known q: a failed stop keeps p active; else a successful start brings up q alone; else p is back and running iff its restore succeeds, and otherwise nothing is active or running |
| Transport.FirstActivation | internal/transport/supervisor.go:184-217 | with nothing active, the transport runs iff it is known and its start succeeds |
| Transport.FailedSwitchFallsBack | internal/agent/service.go:152-180 | an agent's switch whose start fails keeps the runtime's protocol, which is up iff its restore succeeds |
| Transport.Supervisor.Stop | internal/transport/supervisor.go:219-227 | the whole new state |
| Transport.StopOutcome | internal/transport/supervisor.go:219-276 | in every reachable state nothing is active afterwards iff process and stop command both stop; else the transport stays active |
| Transport.SwitchRuntime.Evaluate | internal/transport/runtime.go:54-91 | suppression, switch or rollback report, and the whole new state of runtime and supervisor |
| Transport.EvaluationOutcome | internal/transport/runtime.go:54-91 | an evaluation switches iff another protocol is selected, the cooldown is over and the activation succeeds; the report names the previous and the resulting protocol and exactly one of applied, suppressed and rolled back |
| Transport.Service.Start | internal/agent/service.go:113-142 | activates the runtime's protocol, as one step |
| Transport.StartOutcome | internal/agent/service.go:113-142 | starting activates the runtime's protocol and changes neither runtime nor snapshot |
| Transport.Service.EvaluateAndApply | internal/agent/service.go:152-180 | after every error-free call the shown protocol is the runtime's active one |
| Transport.AppliedIsActiveIff | internal/transport/runtime.go:54-91 | in every reachable state a selection reported as applied is active afterwards iff it was not the runtime's own protocol found with no transport active |
| Transport.ForgottenTransportStaysDown | internal/transport/runtime.go:70-74 | with no transport active, evaluations that keep selecting the runtime's protocol never start it |
| Transport.FailedSwitchShowsADeadTransport | internal/transport/supervisor.go:184-217 | a switch whose start and restore both fail, followed by a selection of the old protocol, reports it as applied and shows it while nothing is active |
| Transport.AtMostOneTransport | internal/transport/supervisor.go:184-276 | for validated specs, over every sequence of operations and failures, at most the active transport runs, none when none is active, and the active one is the runtime's |
| Transport.StopCommandIsNeeded | internal/transport/supervisor.go:39-63 | without the rule that command transports have a stop command two transports could run |
| Transport.SwitchSpacing | internal/transport/runtime.go:54-91 | consecutive successful switches are at least `cooldown` apart, even if the clock steps back |
| Transport.SwitchesTakeTime | internal/transport/runtime.go:54-91 | n switches span at least (n-1)*cooldown |
| Transport.ZeroTimeDefeatsCooldown | internal/transport/runtime.go:75-89 | a switch made at the zero time is not remembered, so the clock must not show it |
| Telemetry.FileTelemetryQueue.Save | internal/agent/telemetry_queue.go:68-110 | stores the newest `maxReports` of the sanitized reports, removes the file when there are none, and fails, leaving the file alone, iff it cannot be written or a report is invalid |
| Telemetry.FileTelemetryQueue.Load | internal/agent/telemetry_queue.go:43-66 | the stored reports sanitized, empty when there is no file, and an error iff it cannot be read or a report is invalid |
| Telemetry.Pusher.PushTelemetry | internal/agent/sync.go:222-249 | pushes queue and sanitized report in order until the first refusal and stores the rest, unless the queue cannot be written or the new report is invalid; keeps the stored queue sanitized and valid; succeeds iff everything was accepted and the queue could be read and cleared |
| Telemetry.PushOutcome | internal/agent/sync.go:222-249 | exactly the first accepted pending reports are delivered, the newest others stay queued up to the capacity, the rest is trimmed |
| Telemetry.UnsavedPushOutcome | internal/agent/sync.go:232-239 | a push whose queue cannot be stored delivers the same and leaves the queue as it was |
| Telemetry.TelemetryConserved | internal/agent/sync.go:222-249 | over every run of valid reports with working storage the queue is exactly the last k <= max reports produced; each older one was delivered, in order and once, or trimmed |
| Telemetry.LossMeansFull | internal/agent/telemetry_queue.go:68-110 | a push loses reports only by filling the queue to capacity |
| Telemetry.RecoveryDelivers | internal/agent/sync.go:222-249 | after an outage one sync delivers everything queued, in order |
| Telemetry.SaveFailureRepeatsAndLoses | internal/agent/sync.go:234-248 | working storage and valid reports are needed: a failed save repeats a delivered report and loses a new one |
| Backoff.Normalize | internal/agent/sync.go:351-365 | accepted options have a positive interval and 0 < initial <= max; what was given is kept, and the defaults are the interval and eight times the initial backoff |
| Backoff.NormalizeAccepts | internal/agent/sync.go:351-365 | options are taken iff the interval is positive and the maximum, given or the eightfold in 64-bit arithmetic, is not below the initial backoff |
| Backoff.OverflowedDefaultIsRefused | internal/agent/sync.go:358-363 | a default maximum that overflows to a negative duration is refused |
| Backoff.NextDoubles | internal/agent/sync.go:367-376 | even where doubling overflows 64 bits the next backoff is min(2*current, max) |
| Backoff.BackoffInRange | internal/agent/sync.go:317-376 | initial <= backoff <= max after every history of results |
| Backoff.RunSyncLoop | internal/agent/sync.go:317-376 | the delay after the (k+1)-th consecutive failure is min(initial*2^k, max), a success resets it |
| ConfigSync.SelectConfig | internal/agent/sync.go:402-415 | selects a bundle of the target iff there is one, by the fold over the list |
| ConfigSync.SelectedRankIgnoresOrderIff | internal/control/server.go:1557-1570 | the selected creation time and version are the same in every order of the list iff one bundle is both newest and greatest in version |
| ConfigSync.SelectionIgnoresOrderIff | internal/control/server.go:1557-1570 | the selected bundle is the same in every order of the list iff a single bundle is both newest and greatest in version, and then it is that one |
| ConfigSync.AgreeingOrdersHaveMaximum | internal/agent/sync.go:402-415 | when creation-time and version orders agree such a bundle exists |
| ConfigSync.VersionTextMisleads | internal/agent/sync.go:402-415 | with versions "9" then "10" the order of the list decides |
| ConfigSync.Agent.ApplyConfig | internal/agent/service.go:189-215 | applied iff valid, addressed to this tenant and device and cached; version and cache change only then |
| ConfigSync.Agent.SyncOnce | internal/agent/sync.go:58-79 | succeeds iff the list was fetched, its selected bundle could be applied and the push went through; the version is the selected one iff it was applied, whether or not the push fails |
| ConfigSync.OnlyOwnBundles | internal/agent/service.go:189-203 | a device takes a bundle iff it is of its own tenant and id and complete, so never another tenant's |
| ConfigSync.ChangedIsSelected | internal/control/server.go:1448-1461 | a change is reported iff something is selected whose version is not the one known, and it is the selected bundle |
| ConfigSync.ListingIsUnique | internal/store/memory.go:301-318 | the store's listing of a tenant's bundles is unique, so agent and watch see one order |
| ConfigSync.Converges | internal/control/server.go:1411-1461 | after every history of the control plane, for every device id, a successful sync reaches the server's selected version, and the watch is then quiet iff the trimmed id is not blank and what it selects for that id, if anything, has the version reached, trimmed |
| ConfigSync.ConvergesOnTrimmedIds | internal/control/server.go:1411-1461 | for ids without blank edges: quiet iff nothing targets the device or the version has no blank edges |
| ConfigSync.BlankIdIsNeverQuiet | internal/control/server.go:1411-1461 | a run of the store after which a device whose id has blank edges is answered with the bundle of the trimmed id, which the agent must refuse |
| Der.DerLength | internal/cert/ocsp.go:555-569 | the backwards byte loop computes the definite length form |
| Der.LengthFormIs | internal/cert/ocsp.go:555-569 | one octet below 128, else the count of octets with the top bit set and octets without a leading zero |
| Der.LengthRoundTrip | internal/cert/ocsp.go:555-569 | the form of every non-negative 63-bit number decodes to it, whatever follows |
| Der.LengthIsMinimal | internal/cert/ocsp.go:555-569 | no definite form of the same number is shorter |
| Der.WrapASN1Sequence | internal/cert/ocsp.go:551-553 | wrapping is undone by stripping the header |
| Der.StripUndoesWrap | internal/cert/ocsp.go:539-553 | stripping a wrapped sequence gives its content back |
| Authority.Authority.Issue | internal/cert/authority.go:198-262 | files a fresh unrevoked record under its serial iff accepted |
| Authority.IssuedRecord | internal/cert/authority.go:198-262 | an issue is accepted iff it names tenant, device and role and has a positive lifetime; it files exactly the record of that holder and lifetime |
| Authority.IssuedStatus | internal/cert/authority.go:326-368 | an issued certificate is good from its issue to the end of its lifetime, not yet valid before, expired after, and unknown to other tenants |
| Authority.Authority.Revoke | internal/cert/authority.go:264-283 | marks exactly the named record |
| Authority.RevokedStatus | internal/cert/authority.go:264-283 | afterwards the certificate is revoked at every instant, since the time given, and all others are as before |
| Authority.Authority.Rotate | internal/cert/authority.go:285-316 | revokes first and issues second, so a failed issue leaves the old one revoked; succeeds iff the serial is known and unrevoked and issuing works |
| Authority.RotatedStatus | internal/cert/authority.go:285-316 | an unrevoked certificate's rotation revokes it now and files one for the same holder from now on |
| Authority.Authority.RevocationListByTenant | internal/cert/authority.go:398-453 | lists exactly the tenant's revoked certificates, each once, records by serial text and CRL entries by serial number with the time to the second |
| Authority.OCSPRoundTrip | internal/cert/ocsp.go:369-411 | parsing inverts encoding of a status, with the unrevoked states collapsed to good and the time cut to the second; encoding fails iff a revoked status has no time or one GeneralizedTime cannot hold |
| Authority.OCSPTags | internal/cert/ocsp.go:369-391 | good, expired and not yet valid are tagged 0, revoked 1, unknown 2 |
| Authority.OCSPRefusals | internal/cert/ocsp.go:174-205 | a blank tenant fails, an undecodable request is malformed, another issuer's is unauthorized |
| Authority.RunIsSound | internal/cert/authority.go:198-316 | in every reachable state records sit under their serials, revoked ones have a time, and replaced ones are revoked and replaced by a certificate of the same holder |
| Authority.RevocationIsPermanent | internal/cert/authority.go:264-316 | with fresh serials no later operation removes a certificate, changes its holder or lifts its revocation |
| Authority.ViewsAgree | internal/cert/ocsp.go:174-212 | in every reachable state a serial is on a tenant's CRL iff its status is revoked iff OCSP says revoked, and unknown iff unknown; CRL and OCSP carry the status time cut to the second, so the times are equal iff it is a whole second; OCSP fails iff the time cannot be encoded |
| Authority.FractionIsDropped | internal/cert/ocsp.go:369-411 | a revocation at a fraction of a second is reported by OCSP at an earlier instant than by the status |
| Authority.BlankTenantIsHiddenFromOCSP | internal/cert/ocsp.go:174-212 | OCSP reports a listed certificate with an encodable time as revoked iff its tenant id has no blank edges |
| Authority.RotatedAtMostOnce | internal/cert/authority.go:285-316 | a replaced certificate can never be rotated again, whatever happens in between |
| Authority.ChainHasOneLiveMember | internal/cert/authority.go:285-316 | every rotation chain has one holder and at most one unrevoked member, its last |
| Authority.RepeatedSerialUnrevokes | internal/cert/authority.go:255-261 | a repeated serial replaces a revoked record by a good one, so fresh serials are needed |
| Store.Memory.CreateTenant | internal/store/memory.go:40-58 | the whole new state and the answer |
| Store.Memory.RegisterDevice | internal/store/memory.go:60-89 | the whole new state and the answer |
| Store.Memory.RegisterNode | internal/store/memory.go:91-114 | the whole new state and the answer |
| Store.Memory.RecordNodeHeartbeat | internal/store/memory.go:116-142 | the whole new state and the answer |
| Store.Memory.RetireNode | internal/store/memory.go:144-170 | the whole new state and the answer |
| Store.Memory.RecordTelemetry | internal/store/memory.go:197-215 | the whole new state and the answer |
| Store.Memory.UpsertPolicyRule | internal/store/memory.go:217-237 | the whole new state and the answer |
| Store.Memory.UpsertConfig | internal/store/memory.go:275-299 | the whole new state and the answer |
| Store.Memory.RecordAuditEvent | internal/store/memory.go:350-369 | the whole new state and the answer |
| Store.Memory.AuditLocked | internal/store/memory.go:371-383 | appends one numbered event to the tenant's log |
| StoreReadBack.RefusedChangesNothing | internal/store/memory.go:40-383 | a cancelled or refused call changes nothing |
| StoreReadBack.TenantAccepted | internal/store/memory.go:40-53 | a tenant is taken iff it is named and new |
| StoreReadBack.TenantReadBack | internal/store/memory.go:52-57 | it can be read back, one event is audited, all else is unchanged |
| StoreReadBack.DeviceAccepted | internal/store/memory.go:60-73 | a device is taken iff it is complete and its tenant exists |
| StoreReadBack.DeviceReadBack | internal/store/memory.go:74-88 | it is in its tenant's row with the two defaults filled in, every other row and map is unchanged, one event is audited |
| StoreReadBack.NodeAccepted | internal/store/memory.go:91-104 | a node is taken iff it is complete and its tenant exists |
| StoreReadBack.NodeReadBack | internal/store/memory.go:105-113 | it is in its tenant's row, every other row and map is unchanged, one event is audited |
| StoreReadBack.HeartbeatAccepted | internal/store/memory.go:116-133 | a heartbeat is taken iff its node is known |
| StoreReadBack.HeartbeatReadBack | internal/store/memory.go:134-141 | the node has the reported health, the time, and the new endpoint if one was named; all else is unchanged |
| StoreReadBack.RetirementAccepted | internal/store/memory.go:144-163 | a retirement is taken iff its node is known |
| StoreReadBack.RetirementReadBack | internal/store/memory.go:164-169 | the node is gone and every other stays |
| StoreReadBack.TelemetryAccepted | internal/store/memory.go:197-209 | a report is taken iff it is complete, its tenant exists and no metric is unnamed or negative |
| StoreReadBack.TelemetryReadBack | internal/store/memory.go:210-214 | it is appended with its metrics, its logs redacted one by one and a time |
| StoreReadBack.RuleAccepted | internal/store/memory.go:217-230 | a rule is taken iff it is valid and its tenant exists |
| StoreReadBack.RuleReadBack | internal/store/memory.go:231-236 | the tenant's row is the old one with the rule at its id, every other row and map is unchanged, one event is audited |
| StoreReadBack.ConfigAccepted | internal/store/memory.go:275-288 | a bundle is taken iff it has its four names and its tenant exists |
| StoreReadBack.ConfigReadBack | internal/store/memory.go:289-298 | the tenant's row is the old one with the stamped bundle at its id, every other row and map is unchanged, one event is audited |
| StoreReadBack.EventReadBack | internal/store/memory.go:350-369 | an event is taken iff it is complete once its id is filled in; it is appended as given, with a time |
| Store.Memory.PolicyRules | internal/store/memory.go:239-261 | answers iff the tenant exists: its rules, each once, best first |
| Store.Memory.EvaluatePolicy | internal/store/memory.go:263-273 | never fails for an existing tenant; decides by the tenant's best stored rule, or not at all when none applies |
| StoreReadBack.UpsertDecides | internal/store/memory.go:217-273 | after an upsert the tenant's policy decides by its old rules with the new one laid over them |
| StoreReadBack.FirstRuleDecides | internal/store/memory.go:217-273 | the first rule of a tenant decides every request it applies to |
| Store.Memory.Configs | internal/store/memory.go:301-318 | answers iff the tenant exists: its bundles, each once, by id |
| Store.StepKeepsSound | internal/store/memory.go:40-383 | every call keeps each record valid and under its own tenant and id, below an existing tenant |
| StoreDurability.CopyMap | internal/store/snapshot.go:36-42 | the copying loop yields an equal map |
| StoreDurability.CopyNested | internal/store/snapshot.go:44-86 | the nested copying loops yield an equal map of maps |
| StoreDurability.Snapshot | internal/store/snapshot.go:21-34 | the snapshot is the memory's contents |
| StoreDurability.NewMemoryFromSnapshot | internal/store/snapshot.go:9-19 | the new memory's contents are the snapshot |
| StoreDurability.NewFileRepository | internal/store/file.go:31-42 | opening loads the file, starts empty without one, and fails iff the file cannot be decoded |
| StoreDurability.FileRepository.Write | internal/store/file.go:44-118 | memory first, then the file; a save that cannot be encoded or written is reported while memory keeps the change |
| StoreDurability.ReloadIsLastSave | internal/store/file.go:31-172 | over every run of calls, save failures and restarts, the file decodes and yields the memory right after the last successful save |
| StoreDurability.RunIsSound | internal/store/file.go:31-118 | memory and file stay sound over every such run |
| StoreDurability.AuditOnlyGrows | internal/store/memory.go:350-383 | each tenant's audit log only grows: on file over every run, in memory between restarts |
| StoreDurability.NonFiniteMetricIsTaken | internal/telemetry/telemetry.go:33-52 | validation takes a report with an infinite metric, which is not below zero |
| StoreDurability.NonFiniteMetricStopsSaves | internal/store/file.go:116-157 | once such a report is in memory, JSON cannot encode the snapshot and nothing is saved any more until a restart |
| StoreDurability.EventIDInjective | internal/store/memory.go:371-373 | tenant and place can be read back from a generated id |
| StoreDurability.GeneratedIdsAreDistinct | internal/store/memory.go:350-383 | in every reachable repository two events share an id only if a caller supplied it |
| StoreDurability.UnknownTenantIsAudited | internal/store/memory.go:350-369 | an event of a tenant that does not exist is taken |
| StoreDurability.AuditedTenantsExistIff | internal/store/memory.go:350-383 | a call keeps audit logs to existing tenants iff it is not a recorded event of a missing one |
| StoreDurability.SuppliedIdCollides | internal/store/memory.go:350-369 | a caller can take the id the next generated event gets |

## Left out

- HTTP handlers, the control console, the desktop client, command-line programs, RBAC, sessions and OIDC: plumbing and finite checks.
- Interface patterns that are a bare `*`, which nftables refuses to load; other patterns ending in `*` are modelled.
- The wording of errors, and the characters of nftables, ip, dnsmasq, WireGuard, FRR, Hysteria2, REALITY and TUIC text: rules and commands are modelled as values.
- The 32-bit width of nftables marks and the kernel's own local, main and default tables.
- The priorities that order the service-chain and policy_mark chains against each other: each chain is modelled alone, and so are the NAT redirects beside them.
- Cryptography, X.509, PEM, JSON, base64, SHA-256 and GeneralizedTime: uninterpreted functions.
- Interleavings inside `FileRepository.save` and `Service.Start`, and between the revocation and the issue of `Rotate`, which releases its lock there: each operation is one atomic step.
- Transports that die by themselves or that a failed start leaves running: a start either runs the transport or does nothing.
- The transport selector and signal validation: the selected protocol and the validity of the signals are inputs. `Service.Evaluate`, which only repaints the snapshot, is not modelled.
- The saturation of `time.Time.Sub` at the ends of the 64-bit range: time differences are exact.
- Signed configuration sync, key refresh, CRL sync and the start-up load of the config cache.
- Domain-suffix syntax: one uninterpreted predicate; the redaction of one log record is an uninterpreted function.
- `Inventory`, `Telemetry`, `AuditEvents` and `Record`, which return stored values unchanged; `HealthTracker` and `Scheduler`, a map of last heartbeats and a filter-then-sort without a promise that spans calls.
- OCSP request and response envelopes beyond the issuer match, the serial and the status.
- StoreDurability.CopyMap: maps are values here, so that the copy is independent of later writes holds by construction and is not stated; the same for aliasing of Go maps and slices in general.
- StoreDurability.CopyNested: as for `StoreDurability.CopyMap`.
- Gateway.RenderIPRouteCommands: IPv4 only, since these commands carry no family flag.
- GatewayAgreement.ObservedTrafficLeavesAsDecided: IPv4 only, with a default-route destination, one table per egress node, and a kernel that uses neither the marks nor the tables.
- ConfigSync.Agent.ApplyConfig: the snapshot's protocol is left to `Transport.Service.ApplyConfig`.
- StoreDurability.FileRepository.Write: the nine write-through methods, identical but for the call they forward, are one method.
- Authority.Authority.RevocationListByTenant: serials are unsigned decimal text, the only kind the authority issues.
