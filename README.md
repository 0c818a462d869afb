# Angular signal-input metadata extraction, inheritance checks and decorator migrations, in Dafny

This project models a slice of the Angular repository in Dafny and proves properties of it:

- **The signal-input migration's metadata extraction.** The schematic finds every `@Input()` member of every class it can migrate and gives each a stable id. It walks the TypeScript sources and the component templates for references to those inputs. It then records which inputs cannot become signal inputs (written to, in an inherited chain with an incompatible member, and so on). Finally it rewrites each reference into a signal read, sharing one `const __tmpN = this.input();` between reads that narrow the same input in one control-flow region. The control-flow part follows TypeScript's flow nodes back to the start of the narrowing container.
- **The compiler's inheritance checks.**
  - `readBaseClass` follows a class's `extends` clause.
  - The declaration scanner walks up the inheritance chain and caches each class's answer.
  - The diagnostics for undecorated base classes and for inherited constructors without `@Injectable()` are built from what the scanner finds.
- **Two ngcc migrations:**
  - the one that adds `@Injectable()` to providers that lack it;
  - the one that adds an abstract `@Directive()` to undecorated classes with decorated fields.
- **The schematic that rewrites undecorated classes with decorated fields.**
- **The template pipeline's `signal_bindings` phase.** It indexes each unit's binding placeholders by binding xref. For a signal compilation job, it puts a property create op in place of the placeholder of each `Property` update op, and throws when that placeholder is missing. For every job, it then removes the placeholders still indexed. It never looks at the bound expression.
- **The JIT transform**, which adds `@Input` metadata to `input()` signal members.
- **The Bazel helper** that writes a partial-compilation tsconfig.

**How operations are modelled.**
- Each operation of those files is a Dafny function or method with a contract.
- Code that mutates objects becomes a class with the same fields. This covers the known-input registry, the reference visitors, the ngcc migration host, the inheritance scanner's cache, the schematic's update recorders, the pipeline's compilation unit and the tsconfig options object.
- Loops become methods proved against a function that specifies their result.
- The TypeScript AST, type checker, template type checker and reflection host are inputs: a tree of node records and oracle functions.

## Model

| member | source | states |
|---|---|---|
| AccessTraversal.TraverseAccess | packages/core/schematics/migrations/signal-migration/metadata_extraction/utils/traverse_access.ts:3-12 | the result is the identifier's parent exactly when that parent is a property or element access, and the identifier itself exactly when it is not; never a higher ancestor |
| ParentUnwrapping.UnwrapParent | packages/core/schematics/migrations/signal-migration/metadata_extraction/utils/unwrap_parent.ts:3-10 | the result is reached from the node through parenthesised and `as` parents only, and its own parent is neither |
| ParentUnwrapping.UnwrapParentUnique | packages/core/schematics/migrations/signal-migration/metadata_extraction/utils/unwrap_parent.ts:3-10 | exactly one node has those two properties, so they determine the result |
| ParentUnwrapping.WrapperPathEndsAtWrapper | packages/core/schematics/migrations/signal-migration/metadata_extraction/utils/unwrap_parent.ts:3-10 | a walk through wrapper parents that moves at all ends at a parenthesised or `as` expression |
| InputIds.GetInputId | packages/core/schematics/migrations/signal-migration/metadata_extraction/utils/input_id.ts:5-16 | the record keeps the declaration, and its id reads back as file id, class part and name part whenever the two parts hold no `@` |
| InputIds.ParseJoinedIdParts | packages/core/schematics/migrations/signal-migration/metadata_extraction/utils/input_id.ts:12 | joining the three parts with `@@` and splitting from the right gives the parts back |
| InputIds.ParseJoinedIdPartsWhenFree | packages/core/schematics/migrations/signal-migration/metadata_extraction/utils/input_id.ts:12 | the same round trip, stated for all parts with the `@`-free condition as a premise |
| InputIds.IdDeterminesParts | packages/core/schematics/migrations/signal-migration/metadata_extraction/utils/input_id.ts:12 | two inputs with equal ids have equal file ids, class parts and name parts |
| InputIds.AnonymousClassPart | packages/core/schematics/migrations/signal-migration/metadata_extraction/utils/input_id.ts:6 | a class without a name contributes `<anonymous>` |
| InputIds.NonIdentifierNamePart | packages/core/schematics/migrations/signal-migration/metadata_extraction/utils/input_id.ts:7 | a property whose name is not an identifier contributes `<non-identifier-name>` |
| MigrationHosts.ReplaceFirst | packages/core/schematics/migrations/signal-migration/metadata_extraction/migration_host.ts:12 | `replace` with a non-global pattern rewrites only the first occurrence, and nothing when there is none |
| MigrationHosts.FileToIdOfPath | packages/core/schematics/migrations/signal-migration/metadata_extraction/migration_host.ts:9-19 | a string argument is made relative verbatim, even when it names a `.d.ts` file |
| MigrationHosts.DeclarationFileSharesId | packages/core/schematics/migrations/signal-migration/metadata_extraction/migration_host.ts:10-16 | a declaration file `p.d.ts` and the source file `p.ts` get the same id |
| MigrationHosts.DeclarationFileNameRewritten | packages/core/schematics/migrations/signal-migration/metadata_extraction/migration_host.ts:11-12 | a declaration file's name has its first `.d.ts` turned into `.ts`, the rest kept |
| Replacements.TextBuffer.constructor | packages/core/schematics/migrations/signal-migration/metadata_extraction/replacement.ts:12 | a fresh buffer keeps every character and has nothing inserted |
| Replacements.TextBuffer.Remove | packages/core/schematics/migrations/signal-migration/metadata_extraction/replacement.ts:14 | the characters of the span are no longer kept, and text appended earlier at a position after the span's start and up to its end is dropped with the removed chunks; an empty span changes nothing; nothing else changes |
| Replacements.TextBuffer.AppendLeft | packages/core/schematics/migrations/signal-migration/metadata_extraction/replacement.ts:15 | the text goes after whatever was already inserted at that position |
| Replacements.ApplyReplacements | packages/core/schematics/migrations/signal-migration/metadata_extraction/replacement.ts:11-18 | the output is `Applied`: every character no span covers, each preceded by the texts of the replacements positioned there, in list order, except those a later span ending at or passing over that position has dropped |
| Replacements.ApplyNone | packages/core/schematics/migrations/signal-migration/metadata_extraction/replacement.ts:11-18 | no replacement gives the input back |
| Replacements.ApplyOrdered | packages/core/schematics/migrations/signal-migration/metadata_extraction/replacement.ts:11-18 | for replacements sorted by position and not overlapping, the result is the left-to-right splice of the original text |
| Replacements.LaterSpanClearsInsertionAtItsEnd | packages/core/schematics/migrations/signal-migration/metadata_extraction/replacement.ts:11-18 | a `()` inserted after `a` in `ab` is lost when a later replacement of `a` is applied, and kept when the replacement of `a` comes first |
| Replacements.ApplyOne | packages/core/schematics/migrations/signal-migration/metadata_extraction/replacement.ts:11-18 | one replacement deletes exactly its span and inserts its text at its start; a zero-width one only inserts |
| Replacements.KeptIff | packages/core/schematics/migrations/signal-migration/metadata_extraction/replacement.ts:14 | a character survives exactly when no replacement's span covers it |
| Replacements.InsertedAtCons | packages/core/schematics/migrations/signal-migration/metadata_extraction/replacement.ts:14-15 | the text a replacement appends at its start is still there, ahead of what later replacements append, unless a later span clears that position |
| Replacements.RenderIsSplice | packages/core/schematics/migrations/signal-migration/metadata_extraction/replacement.ts:13-17 | the buffer after ordered, non-overlapping edits renders as the splice |
| MigrationResults.WithReplacement | packages/core/schematics/migrations/signal-migration/metadata_extraction/result.ts:13-19 | `addReplacement` appends to the file's list, creating it when missing, and leaves every other file's list alone |
| MigrationResults.WithReplacementsInOrder | packages/core/schematics/migrations/signal-migration/metadata_extraction/result.ts:13-19 | two additions to one file land in call order |
| MigrationResults.WithReplacementsAppends | packages/core/schematics/migrations/signal-migration/metadata_extraction/result.ts:13-19 | repeated additions append in order and create the list only when there is something to add |
| MigrationResults.WithEditsConcat | packages/core/schematics/migrations/signal-migration/metadata_extraction/result.ts:13-19 | adding two batches one after the other equals adding their concatenation |
| MigrationResults.MigrationResult.constructor | packages/core/schematics/migrations/signal-migration/metadata_extraction/result.ts:7-11 | all four collections start empty |
| MigrationResults.MigrationResult.AddReplacement | packages/core/schematics/migrations/signal-migration/metadata_extraction/result.ts:13-19 | the replacements become `WithReplacement` of the old ones |
| MigrationResults.MigrationResult.AddSourceInput | packages/core/schematics/migrations/signal-migration/metadata_extraction/result.ts:7 | the set of source inputs gains the input |
| MigrationResults.MigrationResult.AddReference | packages/core/schematics/migrations/signal-migration/metadata_extraction/result.ts:8 | the reference is appended |
| MigrationResults.MigrationResult.MarkIncompatible | packages/core/schematics/migrations/signal-migration/metadata_extraction/result.ts:9 | the input maps to the new incompatibility, every other input keeps its own |
| InputReferences.IsTsInputReference | packages/core/schematics/migrations/signal-migration/metadata_extraction/utils/input_reference.ts:32-34 | true exactly for TypeScript references, false exactly for template references |
| InputDecorators.FirstInputDecorator | packages/core/schematics/migrations/signal-migration/metadata_extraction/input_decorator.ts:90-94 | the result is the first decorator named `Input`, and there is none exactly when no decorator has that name |
| InputDecorators.SourceCodeInput | packages/core/schematics/migrations/signal-migration/metadata_extraction/input_decorator.ts:73-158 | non-candidates (not an identifier-named property, a declaration file, no decorators, no `@Input`) give `null`; a candidate gives the field name, the string or `alias` public name, a boolean `required`, a parsed transform only for a dynamic or reference `transform` value, not a signal, in a source file, with the decorator's identifier; a failed transform parse is an error only outside a named class or for a non-diagnostic exception |
| InputDecorators.TransformResult | packages/core/schematics/migrations/signal-migration/metadata_extraction/input_decorator.ts:114-144 | no candidate value means no transform; a thrown assertion or non-diagnostic exception is an error; a diagnostic is logged and leaves the transform `null` |
| InputDecorators.ExtractSourceCodeInput | packages/core/schematics/migrations/signal-migration/metadata_extraction/input_decorator.ts:73-158 | the step-by-step extraction on local variables returns exactly `SourceCodeInput` |
| InputDecorators.ExtractDtsInput | packages/core/schematics/migrations/signal-migration/metadata_extraction/input_decorator.ts:42-70 | an input is read exactly for an identifier-named property of a named class in a declaration file whose directive metadata maps it, and is that mapping marked as not in a source file and without decorator |
| InputDecorators.ExtractDecoratorInput | packages/core/schematics/migrations/signal-migration/metadata_extraction/input_decorator.ts:29-40 | source-code extraction decides for candidates; the declaration-file reader only for the rest; an input found is on a property declaration and is in a source file exactly when its file is not a declaration file |
| InputDecorators.DefaultsWithoutSingleArgument | packages/core/schematics/migrations/signal-migration/metadata_extraction/input_decorator.ts:96-100 | without exactly one argument the public name is the field name, the input is optional and has no transform |
| InputDecorators.SourceAndDtsExclusive | packages/core/schematics/migrations/signal-migration/metadata_extraction/input_decorator.ts:79-85 | source-code extraction and declaration-file extraction never both apply to one node |
| SignalInputConversion.ConvertToSignalInput | packages/core/schematics/migrations/signal-migration/metadata_extraction/convert_to_signal.ts:8-76 | the conversion fails, with the assertion's error, exactly when there is a transform whose node is not an expression; otherwise the name is kept; an options literal (with `alias` exactly when the names differ and `transform` exactly when there is one) is present exactly when needed and is the last argument; the type arguments are the declared type then the transform's type; an initial value (the initializer, or `undefined`) only for optional inputs with an initializer or options; `input.required` exactly for required inputs, under the decorator's namespace when it had one |
| SignalInputConversion.RequiredInputHasNoInitialValue | packages/core/schematics/migrations/signal-migration/metadata_extraction/convert_to_signal.ts:44-47 | a required input gets no initial value argument |
| SignalInputConversion.PlainInputHasNoArguments | packages/core/schematics/migrations/signal-migration/metadata_extraction/convert_to_signal.ts:17-44 | an optional input without initializer, alias or transform becomes `input()` with no arguments |
| IdentifyInputs.KnownInputs.constructor | packages/core/schematics/migrations/signal-migration/metadata_extraction/passes/1_identify_inputs.ts:14 | a new map of known inputs is empty |
| IdentifyInputs.KnownInputs.Set | packages/core/schematics/migrations/signal-migration/metadata_extraction/passes/1_identify_inputs.ts:39 | the node maps to the new entry, every other node keeps its own |
| IdentifyInputs.FindKnownDeclaration | packages/core/schematics/migrations/signal-migration/metadata_extraction/template_reference_visitor.ts:99 | the result is the first declaration that is a known input, and there is none exactly when no declaration is known |
| IdentifyInputs.VisitNode | packages/core/schematics/migrations/signal-migration/metadata_extraction/passes/1_identify_inputs.ts:26-64 | the visit of one node fails exactly when its extraction throws or, for an input declared in this source file, its conversion throws; otherwise the known inputs, the source inputs and the file's replacements are those of the specification after that node |
| IdentifyInputs.WithReplacementsConcat | packages/core/schematics/migrations/signal-migration/metadata_extraction/passes/1_identify_inputs.ts:44-62 | adding two batches of replacements to one file one after the other equals adding their concatenation |
| IdentifyInputs.IdentifySourceFileAndDeclarationInputs | packages/core/schematics/migrations/signal-migration/metadata_extraction/passes/1_identify_inputs.ts:16-68 | for the pre-order walk of every node below the source file: on success no node's extraction or conversion threw and the state is the specification's after all nodes; on failure some node's extraction or conversion threw and every node before it succeeded |
| IdentifyInputs.KnownAfterRegisters | packages/core/schematics/migrations/signal-migration/metadata_extraction/passes/1_identify_inputs.ts:34-39 | a node is known afterwards exactly when it was before or it was visited and yielded an input, and then it maps to that input and its id (declaration-file inputs included) |
| IdentifyInputs.SourceInputsAfterOnlySource | packages/core/schematics/migrations/signal-migration/metadata_extraction/passes/1_identify_inputs.ts:42-43 | an id joins the source inputs exactly when it was there or some visited node yielded an input in a source file with that id |
| IdentifyInputs.ReplacementsAfterOrigin | packages/core/schematics/migrations/signal-migration/metadata_extraction/passes/1_identify_inputs.ts:42-62 | every replacement added spans a visited node and is either the signal rewrite of a source-file input or `input` for an `Input` import from `@angular/core` |
| IdentifyInputs.IdentifyNodeAt | packages/core/schematics/migrations/signal-migration/metadata_extraction/passes/1_identify_inputs.ts:18-64 | one iteration: the node's extraction and conversion succeed exactly when the step does, and then the state after the first `i` nodes becomes the state after the first `i + 1` |
| IdentifyInputs.PrefixStep | packages/core/schematics/migrations/signal-migration/metadata_extraction/passes/1_identify_inputs.ts:26-67 | the specified known inputs, source inputs and replacements after `i + 1` nodes are those after `i` nodes extended by the `i`-th node alone |
| IdentifyInputs.NoVisitErrorStep | packages/core/schematics/migrations/signal-migration/metadata_extraction/passes/1_identify_inputs.ts:26-67 | a prefix the visitor got through, extended by a node it gets through, is one it got through |
| IdentifyInputs.OneNodeAfter | packages/core/schematics/migrations/signal-migration/metadata_extraction/passes/1_identify_inputs.ts:34-63 | for a single node: registered exactly when its extraction gives an input, a source input exactly for an input from a source file, and that node's replacements |
| IdentifyInputs.NonExpressionTransformStopsPass | packages/core/schematics/migrations/signal-migration/metadata_extraction/convert_to_signal.ts:23-26 | an input declared in the source file whose transform's node is not an expression (a `function` declaration) makes the visit of that node, and so the pass, fail |
| IdentifyInputs.WalkRegistersEveryInput | packages/core/schematics/migrations/signal-migration/metadata_extraction/passes/1_identify_inputs.ts:16-68 | after the walk, every input declared anywhere below the file is registered under its declaration |
| IdentifyInputs.CoreInputImportRewritten | packages/core/schematics/migrations/signal-migration/metadata_extraction/passes/1_identify_inputs.ts:55-63 | every `Input` import specifier from `@angular/core` among the visited nodes is replaced by `input` |
| TemplateReferences.AccessRecord | packages/core/schematics/migrations/signal-migration/metadata_extraction/template_reference_visitor.ts:88-147 | the type-check-block lookup wins when it finds a known input; otherwise a record exists exactly when the class-type lookup finds one; a record points at a known input with that input's id, the read and the active template node |
| TemplateReferences.EveryAccessInspected | packages/core/schematics/migrations/signal-migration/metadata_extraction/template_reference_visitor.ts:77-91 | with the corrected visit, every property read or write anywhere in an expression whose lookup succeeds is recorded |
| TemplateReferences.EveryListAccessInspected | packages/core/schematics/migrations/signal-migration/metadata_extraction/template_reference_visitor.ts:77-91 | the same for a list of expressions |
| TemplateReferences.RecordsAreKnownInputs | packages/core/schematics/migrations/signal-migration/metadata_extraction/template_reference_visitor.ts:99-146 | every record of an expression names a known input, carries that input's id and the active template node |
| TemplateReferences.RecordsOfListAreKnownInputs | packages/core/schematics/migrations/signal-migration/metadata_extraction/template_reference_visitor.ts:99-146 | the same for a list of expressions |
| TemplateReferences.ExprRefsAsWritten | packages/core/schematics/migrations/signal-migration/metadata_extraction/template_reference_visitor.ts:77-82 | the records of an expression as the visitor is written: each access is inspected but its receiver and a write's value are not visited; every such record is also a record of the corrected visit |
| TemplateReferences.NestedReadMissedAsWritten | packages/core/schematics/migrations/signal-migration/metadata_extraction/template_reference_visitor.ts:77-82 | in `{{ myInput.length }}` the visitor as written records nothing, while the corrected visit records the read of `myInput` |
| TemplateReferences.TemplateExpressionReferenceVisitor.constructor | packages/core/schematics/migrations/signal-migration/metadata_extraction/template_reference_visitor.ts:59-70 | the visitor starts with no active node and an empty result |
| TemplateReferences.TemplateExpressionReferenceVisitor.VisitTemplateExpression | packages/core/schematics/migrations/signal-migration/metadata_extraction/template_reference_visitor.ts:72-75 | (corrected; see Findings) the active node becomes the given one and the expression's records, receivers and written values included, are appended |
| TemplateReferences.TemplateExpressionReferenceVisitor.Visit | packages/core/schematics/migrations/signal-migration/metadata_extraction/template_reference_visitor.ts:77-82 | (corrected; see Findings) visiting an expression appends exactly its records, nested accesses included, in visit order |
| TemplateReferences.TemplateExpressionReferenceVisitor.VisitPropertyRead | packages/core/schematics/migrations/signal-migration/metadata_extraction/template_reference_visitor.ts:77-79 | a read appends its own record, if any, then the records of its receiver (the receiver visit is the correction) |
| TemplateReferences.TemplateExpressionReferenceVisitor.VisitPropertyWrite | packages/core/schematics/migrations/signal-migration/metadata_extraction/template_reference_visitor.ts:80-82 | a write appends its own record, if any, then the records of its receiver and of the written value (the two visits are the correction) |
| TemplateReferences.TemplateExpressionReferenceVisitor.VisitAll | packages/core/schematics/migrations/signal-migration/metadata_extraction/template_reference_visitor.ts:77-82 | visiting a list appends the records of each expression in order |
| TemplateReferences.TemplateExpressionReferenceVisitor.InspectPropertyAccess | packages/core/schematics/migrations/signal-migration/metadata_extraction/template_reference_visitor.ts:88-91 | at most one record is appended: the access's record when a lookup succeeds |
| TemplateReferences.TemplateReferenceVisitor.constructor | packages/core/schematics/migrations/signal-migration/metadata_extraction/template_reference_visitor.ts:30-44 | the expression visitor is new, has the checkers and known inputs, and an empty shared result |
| TemplateReferences.TemplateReferenceVisitor.VisitNodes | packages/core/schematics/migrations/signal-migration/metadata_extraction/template_reference_visitor.ts:46-56 | (corrected; see Findings) the shared result gains the records of the bound texts, event handlers and bound attributes, nested accesses included, in order |
| SourceReferences.AccessParentAsWritten | packages/core/schematics/migrations/signal-migration/metadata_extraction/passes/2_find_source_file_references.ts:74 | the node line 74 inspects is reached from the access's parent through parentheses and `as` expressions; when that parent is one, the node is the outermost wrapper (so never an `=`), the child of the corrected node; otherwise the parent is the corrected node, and any `=` found is the corrected one |
| SourceReferences.AccessParent | packages/core/schematics/migrations/signal-migration/metadata_extraction/passes/2_find_source_file_references.ts:74 | (corrected; see Findings) the node inspected for an `=` is the parent of the access after climbing every parenthesis and `as` expression above the access: never a wrapper |
| SourceReferences.AssignmentInParenthesesMissedAsWritten | packages/core/schematics/migrations/signal-migration/metadata_extraction/passes/2_find_source_file_references.ts:74-80 | for `x = (this.myInput = 1);` the node inspected as written is the parenthesis, not the inner `=`, which the corrected inspection finds |
| SourceReferences.AccessParentIsFirstNonWrapper | packages/core/schematics/migrations/signal-migration/metadata_extraction/passes/2_find_source_file_references.ts:74-80 | when the access sits under a chain of wrappers, the inspected node is the parent of the chain's top |
| SourceReferences.ParenthesizedAssignmentMissedAsWritten | packages/core/schematics/migrations/signal-migration/metadata_extraction/passes/2_find_source_file_references.ts:74-80 | for `(this.myInput) = 1;` the node inspected as written is not the assignment, while the corrected inspection finds it |
| SourceReferences.TemplateReferencesOf | packages/core/schematics/migrations/signal-migration/metadata_extraction/passes/2_find_source_file_references.ts:103-114 | one template reference per visitor result, in order, from the class's file to the template's file with the result's input id |
| SourceReferences.TemplateEditsOf | packages/core/schematics/migrations/signal-migration/metadata_extraction/passes/2_find_source_file_references.ts:118-122 | one `()` insertion per visitor result, at the end of its read, in the template's file |
| SourceReferences.RecordTemplateResults | packages/core/schematics/migrations/signal-migration/metadata_extraction/passes/2_find_source_file_references.ts:103-123 | the loop appends exactly those references and adds exactly those replacements |
| SourceReferences.IdentifyTemplateReferences | packages/core/schematics/migrations/signal-migration/metadata_extraction/passes/2_find_source_file_references.ts:85-125 | a class with a template records its visitor's references and `()` insertions; a class without one records nothing |
| SourceReferences.IdentifyPotentialTypeScriptReference | packages/core/schematics/migrations/signal-migration/metadata_extraction/passes/2_find_source_file_references.ts:44-83 | an identifier resolving to a known input appends one TypeScript reference and one `()` insertion after it, and marks the input incompatible when the first non-wrapper ancestor of its access is an `=` binary expression, whichever side the access is on, so `y = this.myInput` is marked and `this.myInput += 1` is not (corrected; see Findings); otherwise nothing changes |
| SourceReferences.VisitNode | packages/core/schematics/migrations/signal-migration/metadata_extraction/passes/2_find_source_file_references.ts:20-40 | (corrected; see Findings) one node adds its class's template records, then its identifier's records and incompatibility |
| SourceReferences.AfterStep | packages/core/schematics/migrations/signal-migration/metadata_extraction/passes/2_find_source_file_references.ts:39-41 | visiting one more node extends references, replacements and incompatibilities by exactly that node's effects |
| SourceReferences.IncompatibleStep | packages/core/schematics/migrations/signal-migration/metadata_extraction/passes/2_find_source_file_references.ts:81 | the last node of a prefix adds its incompatibility on top of the ones before it |
| SourceReferences.VisitNodeAt | packages/core/schematics/migrations/signal-migration/metadata_extraction/passes/2_find_source_file_references.ts:20-40 | one iteration turns the state after the first `i` nodes into the state after the first `i + 1` |
| SourceReferences.IdentifySourceFileReferences | packages/core/schematics/migrations/signal-migration/metadata_extraction/passes/2_find_source_file_references.ts:12-42 | (corrected; see Findings) for the pre-order walk of every node below the source file, the result gains the references, replacements and incompatibilities of each node, in order |
| SourceReferences.DeclarationNameIsNotAReference | packages/core/schematics/migrations/signal-migration/metadata_extraction/passes/2_find_source_file_references.ts:32-35 | the name of a property declaration yields no reference, no replacement and no incompatibility |
| SourceReferences.MatchedIdentifierEffects | packages/core/schematics/migrations/signal-migration/metadata_extraction/passes/2_find_source_file_references.ts:51-72 | an identifier resolving to a known input yields exactly one reference to that input's id and one `()` insertion at its end |
| SourceReferences.OneReplacementPerReference | packages/core/schematics/migrations/signal-migration/metadata_extraction/passes/2_find_source_file_references.ts:61-122 | pass 2 adds as many replacements as references |
| SourceReferences.NodeReferencesRecorded | packages/core/schematics/migrations/signal-migration/metadata_extraction/passes/2_find_source_file_references.ts:20-41 | every reference a visited node yields is among the references the pass records |
| SourceReferences.EditsAreCallInsertions | packages/core/schematics/migrations/signal-migration/metadata_extraction/passes/2_find_source_file_references.ts:71-121 | every replacement of pass 2 is an empty span followed by `()` |
| SourceReferences.IncompatibleOnlyWhenWritten | packages/core/schematics/migrations/signal-migration/metadata_extraction/passes/2_find_source_file_references.ts:77-82 | (corrected; see Findings) an input is newly incompatible exactly when a visited identifier resolving to it has an `=` binary expression as first non-wrapper ancestor of its access, and the record says `write-assignment` with that expression as context |
| SourceReferences.WalkRecordsEveryReference | packages/core/schematics/migrations/signal-migration/metadata_extraction/passes/2_find_source_file_references.ts:12-41 | after the walk, every identifier below the source file that resolves to a known input and is not a declaration's name has its TypeScript reference recorded |
| SourceReferences.ReferenceOrigin | packages/core/schematics/migrations/signal-migration/metadata_extraction/passes/2_find_source_file_references.ts:20-40 | every TypeScript reference comes from a visited identifier that resolves to a known input, and every template reference from a visited class's template |
| FlowNodes.Walk | packages/core/schematics/migrations/signal-migration/metadata_extraction/flow_analysis/flow_node.ts:3-54 | a walk that ends yields a start node where the walk does not go on into the container |
| FlowNodes.StartIsItsOwnFlowStart | packages/core/schematics/migrations/signal-migration/metadata_extraction/flow_analysis/flow_node.ts:32-47 | a start where the walk does not go on is its own answer |
| FlowNodes.WalkThroughAntecedent | packages/core/schematics/migrations/signal-migration/metadata_extraction/flow_analysis/flow_node.ts:13-31 | assignments, calls, conditions, switch clauses, array mutations and reduce labels are stepped over to their antecedent without changing the answer |
| FlowNodes.AccessStopsAtFirstStart | packages/core/schematics/migrations/signal-migration/metadata_extraction/flow_analysis/flow_node.ts:35-47 | for property and element accesses the first start reached is the answer |
| FlowNodes.SelfLoopGivesUp | packages/core/schematics/migrations/signal-migration/metadata_extraction/flow_analysis/flow_node.ts:4-11 | on an assignment that is its own antecedent the walk gives up after the depth limit and yields `null` |
| FlowNodes.TraverseToFlowStart | packages/core/schematics/migrations/signal-migration/metadata_extraction/flow_analysis/flow_node.ts:3-54 | the loop with its depth counter returns exactly the walk's answer, a start node when there is one |
| ControlFlowAnalysis.Starts | packages/core/schematics/migrations/signal-migration/metadata_extraction/flow_analysis/index.ts:27-33 | the flow starts of all accesses in order, and none exactly when some access reaches no start |
| ControlFlowAnalysis.FirstInContainer | packages/core/schematics/migrations/signal-migration/metadata_extraction/flow_analysis/index.ts:36-44 | the access whose id names a container is an access at or before this one with the same flow start |
| ControlFlowAnalysis.Analysis | packages/core/schematics/migrations/signal-migration/metadata_extraction/flow_analysis/index.ts:19-64 | one result per access, each as it stands once every access has been analysed |
| ControlFlowAnalysis.NodeUpToStep | packages/core/schematics/migrations/signal-migration/metadata_extraction/flow_analysis/index.ts:48-53 | analysing one more access changes an earlier result only by marking its container's first access shared, when the new access is narrowed |
| ControlFlowAnalysis.NodeUpToNew | packages/core/schematics/migrations/signal-migration/metadata_extraction/flow_analysis/index.ts:55-60 | a new access's own result carries its index and node, is not shared, and points at its container's first access exactly when narrowed |
| ControlFlowAnalysis.ContainersStep | packages/core/schematics/migrations/signal-migration/metadata_extraction/flow_analysis/index.ts:36-44 | the container map keeps mapping each flow start seen to the id of its first access |
| ControlFlowAnalysis.ResultsStep | packages/core/schematics/migrations/signal-migration/metadata_extraction/flow_analysis/index.ts:48-60 | the results list keeps being the analysis up to the accesses seen |
| ControlFlowAnalysis.AddEntry | packages/core/schematics/migrations/signal-migration/metadata_extraction/flow_analysis/index.ts:35-60 | the loop body turns the state after some accesses into the state after one more |
| ControlFlowAnalysis.AnalyzeControlFlow | packages/core/schematics/migrations/signal-migration/metadata_extraction/flow_analysis/index.ts:19-64 | the analysis throws `No flow container` exactly when some access reaches no flow start, and otherwise returns `Analysis` of the starts |
| ControlFlowAnalysis.SharedIsNeverNarrowed | packages/core/schematics/migrations/signal-migration/metadata_extraction/flow_analysis/index.ts:48-59 | an access marked shared is itself never narrowed |
| ControlFlowAnalysis.NarrowedPointsAtSharedAccess | packages/core/schematics/migrations/signal-migration/metadata_extraction/flow_analysis/index.ts:48-59 | a narrowed access points at an earlier access with the same flow start, which is marked shared and not narrowed |
| ControlFlowAnalysis.NarrowedIff | packages/core/schematics/migrations/signal-migration/metadata_extraction/flow_analysis/index.ts:48-49 | an access is narrowed exactly when an earlier access shares its flow start and its type differs from the declared type |
| MigrateTsReferences.FindGroup | packages/core/schematics/migrations/signal-migration/metadata_extraction/passes/3_migrate_ts_references.ts:21-26 | the index of the group for an input, and none exactly when no group has that target |
| MigrateTsReferences.FirstSymbolIffAccesses | packages/core/schematics/migrations/signal-migration/metadata_extraction/passes/3_migrate_ts_references.ts:15-28 | an input has a first TypeScript reference symbol exactly when it has accesses |
| MigrateTsReferences.GroupsPartitionTsReferences | packages/core/schematics/migrations/signal-migration/metadata_extraction/passes/3_migrate_ts_references.ts:15-28 | the grouping skips template references and gives one group per input with TypeScript references, holding its accesses in order and typed by the symbol of its first reference |
| MigrateTsReferences.NewGroupMatches | packages/core/schematics/migrations/signal-migration/metadata_extraction/passes/3_migrate_ts_references.ts:21-27 | the first reference to an input opens a group that matches the reference definition |
| MigrateTsReferences.ExistingGroupMatches | packages/core/schematics/migrations/signal-migration/metadata_extraction/passes/3_migrate_ts_references.ts:27 | a later reference to an input is appended to its group, which keeps matching |
| MigrateTsReferences.GroupTsReferences | packages/core/schematics/migrations/signal-migration/metadata_extraction/passes/3_migrate_ts_references.ts:13-28 | the grouping loop builds exactly the groups of the specification, in insertion order |
| MigrateTsReferences.EnclosingStatement | packages/core/schematics/migrations/signal-migration/metadata_extraction/passes/3_migrate_ts_references.ts:51-56 | the result is the node, or an ancestor in the same file, whose parent is a block or source file, reached through non-container parents |
| MigrateTsReferences.EnclosingStatementUnique | packages/core/schematics/migrations/signal-migration/metadata_extraction/passes/3_migrate_ts_references.ts:51-56 | only one node is so reached, so that property determines the statement |
| MigrateTsReferences.FindEnclosingStatement | packages/core/schematics/migrations/signal-migration/metadata_extraction/passes/3_migrate_ts_references.ts:51-56 | the `parentBlock`/`previous` loop returns exactly that statement |
| MigrateTsReferences.LineStart | packages/core/schematics/migrations/signal-migration/metadata_extraction/passes/3_migrate_ts_references.ts:59 | the result is the last line start at or before the position |
| MigrateTsReferences.ColumnSpan | packages/core/schematics/migrations/signal-migration/metadata_extraction/passes/3_migrate_ts_references.ts:59-66 | the column never exceeds the position, and the characters it counts contain no line break other than inside `\r\n` |
| MigrateTsReferences.ConcatResults | packages/core/schematics/migrations/signal-migration/metadata_extraction/passes/3_migrate_ts_references.ts:30-76 | the combined result fails exactly when one part fails, and then with one of the parts' errors |
| MigrateTsReferences.ConcatStep | packages/core/schematics/migrations/signal-migration/metadata_extraction/passes/3_migrate_ts_references.ts:30-76 | one more part either fails the whole with its error or appends its edits |
| MigrateTsReferences.ErrPersists | packages/core/schematics/migrations/signal-migration/metadata_extraction/passes/3_migrate_ts_references.ts:30-76 | once a prefix failed, the whole fails with the same error |
| MigrateTsReferences.Attempted | packages/core/schematics/migrations/signal-migration/metadata_extraction/passes/3_migrate_ts_references.ts:30-76 | what a loop that stops at the first error has added: when nothing fails, exactly the combined edits |
| MigrateTsReferences.AttemptedAtFailure | packages/core/schematics/migrations/signal-migration/metadata_extraction/passes/3_migrate_ts_references.ts:30-76 | when turn `i` is the first to fail, the loop has added the edits of the turns before it followed by what turn `i` added before throwing |
| MigrateTsReferences.EntryResults | packages/core/schematics/migrations/signal-migration/metadata_extraction/passes/3_migrate_ts_references.ts:34-75 | one result per analysis entry, in order |
| MigrateTsReferences.AccessesAreIdentifiers | packages/core/schematics/migrations/signal-migration/metadata_extraction/passes/3_migrate_ts_references.ts:27 | the accesses of an input are identifiers |
| MigrateTsReferences.GroupsAreIdentifiers | packages/core/schematics/migrations/signal-migration/metadata_extraction/passes/3_migrate_ts_references.ts:27 | every group holds identifiers only |
| MigrateTsReferences.GroupResults | packages/core/schematics/migrations/signal-migration/metadata_extraction/passes/3_migrate_ts_references.ts:30-76 | one result per group, in order |
| MigrateTsReferences.MigrateEntry | packages/core/schematics/migrations/signal-migration/metadata_extraction/passes/3_migrate_ts_references.ts:34-75 | one entry fails exactly when its specification fails, and then adds nothing; otherwise it adds exactly its replacements |
| MigrateTsReferences.MigrateAnalysis | packages/core/schematics/migrations/signal-migration/metadata_extraction/passes/3_migrate_ts_references.ts:34-75 | the inner loop stops at the first failing entry with its error, keeping the replacements of the entries before it, and otherwise adds every entry's replacements in order |
| MigrateTsReferences.MigrateGroup | packages/core/schematics/migrations/signal-migration/metadata_extraction/passes/3_migrate_ts_references.ts:30-75 | one group fails exactly when its analysis or an entry fails, keeping what its entries added before the failure, and otherwise adds its replacements |
| MigrateTsReferences.MigrateTypeScriptReferences | packages/core/schematics/migrations/signal-migration/metadata_extraction/passes/3_migrate_ts_references.ts:9-77 | the pass fails exactly when its specification fails, with the same error, and then keeps the replacements added before the error; otherwise it adds every group's replacements in insertion order |
| MigrateTsReferences.AnalysisEditsSucceed | packages/core/schematics/migrations/signal-migration/metadata_extraction/passes/3_migrate_ts_references.ts:37-40 | the `Unexpected!` error is never thrown: the analysis never marks an access both narrowed and shared |
| MigrateTsReferences.GroupFailsOnlyWithoutFlowStart | packages/core/schematics/migrations/signal-migration/metadata_extraction/passes/3_migrate_ts_references.ts:32 | a group fails exactly when one of its accesses has no flow start, and then with `No flow container` |
| MigrateTsReferences.AccessesOfMembers | packages/core/schematics/migrations/signal-migration/metadata_extraction/passes/3_migrate_ts_references.ts:15-28 | a node is among an input's accesses exactly when some TypeScript reference to that input is from it |
| MigrateTsReferences.Pass3FailsOnlyWithoutFlowStart | packages/core/schematics/migrations/signal-migration/metadata_extraction/passes/3_migrate_ts_references.ts:9-77 | the pass fails exactly when some TypeScript reference has no reachable flow start, and then with `No flow container` |
| MigrateTsReferences.ReferenceWithoutStartFails | packages/core/schematics/migrations/signal-migration/metadata_extraction/passes/3_migrate_ts_references.ts:9-77 | a TypeScript reference without a flow start makes the pass fail |
| MigrateTsReferences.FailureHasReferenceWithoutStart | packages/core/schematics/migrations/signal-migration/metadata_extraction/passes/3_migrate_ts_references.ts:9-77 | a failure of the pass has such a reference and the `No flow container` message |
| MigrateTsReferences.NarrowedReadsDeclaredTemp | packages/core/schematics/migrations/signal-migration/metadata_extraction/passes/3_migrate_ts_references.ts:37-74 | a narrowed access is replaced by `__tmp<j>` for an earlier access `j`, and that access declares `const __tmp<j> = ...` before its statement and is itself replaced by `__tmp<j>` |
| MigrateTsReferences.UntouchedIff | packages/core/schematics/migrations/signal-migration/metadata_extraction/passes/3_migrate_ts_references.ts:37-74 | an access gets no replacement exactly when it is neither narrowed nor the first access of a container with a later narrowed access |
| SerializableResults.Chain | packages/core/schematics/migrations/signal-migration/metadata_extraction/result_serializable.ts:36-53 | the nodes the loop visits, outermost first, ending at the node itself |
| SerializableResults.ChainShape | packages/core/schematics/migrations/signal-migration/metadata_extraction/result_serializable.ts:36-53 | the chain holds no source file, starts right below the source file and steps one parent at a time |
| SerializableResults.Segments | packages/core/schematics/migrations/signal-migration/metadata_extraction/result_serializable.ts:39-50 | one segment per node: its name for a named class, interface, function-like, variable or property declaration, its kind number otherwise |
| SerializableResults.PrependSegment | packages/core/schematics/migrations/signal-migration/metadata_extraction/result_serializable.ts:51 | processing a node puts its segment in front of the id, separated by `@` |
| SerializableResults.ChainStep | packages/core/schematics/migrations/signal-migration/metadata_extraction/result_serializable.ts:52-53 | moving up one parent extends the processed chain by one node, until the source file |
| SerializableResults.SerializeExportNodeId | packages/core/schematics/migrations/signal-migration/metadata_extraction/result_serializable.ts:34-55 | on a source-file node the loop throws reading the missing parent's kind; on any other node it returns exactly the export id of the node's chain |
| SerializableResults.SerializeNode | packages/core/schematics/migrations/signal-migration/metadata_extraction/result_serializable.ts:57-72 | the source-file node of a declaration file throws, as its export id does; other nodes of declaration files are external, named by their export id; nodes of other files are source nodes with their span and not from a template; both keep the file name |
| SerializableResults.FirstAt | packages/core/schematics/migrations/signal-migration/metadata_extraction/result_serializable.ts:51 | the position of the first `@` of a string that has one |
| SerializableResults.SplitExportId | packages/core/schematics/migrations/signal-migration/metadata_extraction/result_serializable.ts:51 | splitting an id at `@` gives back its segments when none is empty or holds `@` |
| SerializableResults.ExportIdReadsBack | packages/core/schematics/migrations/signal-migration/metadata_extraction/result_serializable.ts:34-55 | under that condition the export id reads back as the node's ancestors' segments, the node's own last |
| BaseClasses.ReadBaseClass | packages/compiler-cli/src/ngtsc/inheritance/src/base_class.ts:13-27 | `null` exactly without a base expression, a reference exactly when it evaluates to a class, `dynamic` otherwise; a referenced base is a known class declared before its subclass |
| InheritanceScanner.ProposedType | packages/compiler-cli/src/ngtsc/inheritance/src/scanner.ts:222-223 | an injectable is told to decorate the base with @Injectable, every other declaration with @Directive |
| InheritanceScanner.DeclarationOf | packages/compiler-cli/src/ngtsc/inheritance/src/scanner.ts:165-190 | directive metadata decides first (component or directive), then pipe metadata, then the injectable registry; otherwise no declaration |
| InheritanceScanner.Walked | packages/compiler-cli/src/ngtsc/inheritance/src/scanner.ts:79-122 | the classes the walk passes are known classes |
| InheritanceScanner.Reached | packages/compiler-cli/src/ngtsc/inheritance/src/scanner.ts:93-105 | the decorated base the walk stops at is a known ancestor and its declaration is the one found for it |
| InheritanceScanner.WalkedIsUndecoratedChain | packages/compiler-cli/src/ngtsc/inheritance/src/scanner.ts:79-122 | the walked classes are undecorated, each the base class of the one before, starting at the class's own base, and the last one's base is the decorated base when one is reached |
| InheritanceScanner.Compatibility | packages/compiler-cli/src/ngtsc/inheritance/src/scanner.ts:141-157 | compatible exactly when no diagnostic: a non-component may not inherit a component, an injectable only an injectable; an incompatible base yields one diagnostic on the class, the component error taking precedence |
| InheritanceScanner.FirstWithConstructor | packages/compiler-cli/src/ngtsc/inheritance/src/scanner.ts:113-116 | the first walked class that declares a constructor, and none exactly when no walked class does |
| InheritanceScanner.WalkingStarts | packages/compiler-cli/src/ngtsc/inheritance/src/scanner.ts:75-77 | the loop state before the first iteration |
| InheritanceScanner.WalkingSteps | packages/compiler-cli/src/ngtsc/inheritance/src/scanner.ts:113-121 | passing an undecorated base appends it to the chain and records it as the constructor's owner when the class inherits its constructor and none was found yet |
| InheritanceScanner.WalkingEndsUndecorated | packages/compiler-cli/src/ngtsc/inheritance/src/scanner.ts:83-91 | a walk ending without a resolvable base reports the inherited-constructor diagnostic exactly when a constructor owner was found, and flags nothing |
| InheritanceScanner.WalkingEndsDecorated | packages/compiler-cli/src/ngtsc/inheritance/src/scanner.ts:100-105 | a walk ending at a decorated base reports the compatibility diagnostics and flags the chain only when compatible |
| InheritanceScanner.SetKeepsMapOk | packages/compiler-cli/src/ngtsc/inheritance/src/scanner.ts:102 | `Map.set` keeps the keys unique and the existing keys in place |
| InheritanceScanner.SetAllKeepsMapOk | packages/compiler-cli/src/ngtsc/inheritance/src/scanner.ts:102 | setting a chain keeps keys unique and in first-insertion order, maps every chain class to the base and leaves the other entries alone |
| InheritanceScanner.SetAllKeepsUndecoratedMapOk | packages/compiler-cli/src/ngtsc/inheritance/src/scanner.ts:102 | flagged classes and their bases stay known classes |
| InheritanceScanner.UndecoratedDiagnostics | packages/compiler-cli/src/ngtsc/inheritance/src/scanner.ts:131-133 | one diagnostic per flagged class |
| InheritanceScanner.UndecoratedDiagnosticsStep | packages/compiler-cli/src/ngtsc/inheritance/src/scanner.ts:131-133 | one more key adds its diagnostic at the end |
| InheritanceScanner.UndecoratedDiagnosticsPerKey | packages/compiler-cli/src/ngtsc/inheritance/src/scanner.ts:131-133 | the `i`th diagnostic is about the `i`th flagged class, in insertion order, and names the base it inherits from |
| InheritanceScanner.DeclarationInheritanceScanner.constructor | packages/compiler-cli/src/ngtsc/inheritance/src/scanner.ts:51-58 | a new scanner has no diagnostics, no flagged classes and an empty cache |
| InheritanceScanner.DeclarationInheritanceScanner.FindDeclarationOfClass | packages/compiler-cli/src/ngtsc/inheritance/src/scanner.ts:165-190 | the answer is the uncached `DeclarationOf`, and a found declaration is cached |
| InheritanceScanner.DeclarationInheritanceScanner.CheckInheritanceCompatibility | packages/compiler-cli/src/ngtsc/inheritance/src/scanner.ts:141-157 | returns `Compatibility`'s verdict and appends its diagnostics |
| InheritanceScanner.DeclarationInheritanceScanner.CheckInheritance | packages/compiler-cli/src/ngtsc/inheritance/src/scanner.ts:64-123 | appends the class's diagnostics and, with a compatible decorated base, flags the walked classes for that base |
| InheritanceScanner.DeclarationInheritanceScanner.GetDiagnostics | packages/compiler-cli/src/ngtsc/inheritance/src/scanner.ts:129-135 | the direct diagnostics, then one per flagged class in insertion order |
| InheritanceScanner.ConstructorDiagnosticWithoutBase | packages/compiler-cli/src/ngtsc/inheritance/src/scanner.ts:73-116 | without a decorated base nothing is flagged, and a diagnostic is produced exactly when the class inherits its constructor from a walked class, naming the first one |
| InheritanceScanner.NoConstructorDiagnosticWithBase | packages/compiler-cli/src/ngtsc/inheritance/src/scanner.ts:100-116 | with a decorated base no constructor diagnostic is produced |
| InheritanceScanner.ComponentBaseCheckedFirst | packages/compiler-cli/src/ngtsc/inheritance/src/scanner.ts:143-147 | a non-component inheriting a component gets exactly the component-base error and nothing is flagged |
| InheritanceScanner.CompatibleBaseFlagsIntermediaries | packages/compiler-cli/src/ngtsc/inheritance/src/scanner.ts:100-103 | with a compatible decorated base there is no diagnostic and exactly the walked undecorated classes are flagged |
| AnnotationDiagnostics.UndecoratedProviderDiagnostic | packages/compiler-cli/src/ngtsc/annotations/src/diagnostics.ts:36-47 | an undecorated-provider diagnostic at the context node with one related note pointing at the class's declaration |
| AnnotationDiagnostics.Undecorated | packages/compiler-cli/src/ngtsc/annotations/src/diagnostics.ts:31-34 | the undecorated providers are no more than the providers |
| AnnotationDiagnostics.UndecoratedMembers | packages/compiler-cli/src/ngtsc/annotations/src/diagnostics.ts:31-34 | a provider is reported exactly when it is in the set and not injectable |
| AnnotationDiagnostics.ProviderDiagnostics | packages/compiler-cli/src/ngtsc/annotations/src/diagnostics.ts:36-47 | one diagnostic per undecorated provider, in order |
| AnnotationDiagnostics.GetProviderDiagnostics | packages/compiler-cli/src/ngtsc/annotations/src/diagnostics.ts:26-51 | the loop returns exactly the diagnostics of the undecorated providers, in iteration order |
| AnnotationDiagnostics.NoProviderDiagnosticsIff | packages/compiler-cli/src/ngtsc/annotations/src/diagnostics.ts:26-51 | there is no diagnostic exactly when every provider is injectable |
| AnnotationDiagnostics.ProviderDiagnosticsReportUndecorated | packages/compiler-cli/src/ngtsc/annotations/src/diagnostics.ts:26-51 | every diagnostic is the one of some non-injectable provider of the set |
| AnnotationDiagnostics.DirectiveDiagnostics | packages/compiler-cli/src/ngtsc/annotations/src/diagnostics.ts:53-64 | no diagnostic exactly when the registry reports no duplicates, otherwise exactly the duplicate-declaration error |
| AnnotationDiagnostics.UndecoratedClassWithAngularFeaturesDiagnostic | packages/compiler-cli/src/ngtsc/annotations/src/diagnostics.ts:66-72 | the undecorated-class-using-Angular-features error at the class, with the fixed message and no related notes |
| NgccMigrationHost.SyntheticDecorator | packages/compiler-cli/ngcc/src/migrations/missing_injectable_migration.ts:199 | the injected decorator is imported from `@angular/core` under the given name and has an empty argument list |
| NgccMigrationHost.AllDecorators | packages/compiler-cli/ngcc/src/migrations/missing_injectable_migration.ts:210-213 | a class has no decorators exactly when it has no declared and no injected ones; the injected ones are always among them |
| NgccMigrationHost.MigrationHost.constructor | packages/compiler-cli/ngcc/src/migrations/missing_injectable_migration.ts:37 | a host starts with no injected decorators and no transforms |
| NgccMigrationHost.MigrationHost.InjectSyntheticDecorator | packages/compiler-cli/ngcc/src/migrations/missing_injectable_migration.ts:199 | the decorator is appended to the class's injected decorators, the other classes' are kept |
| NgccMigrationHost.MigrationHost.AddTransform | packages/compiler-cli/ngcc/src/migrations/missing_injectable_migration.ts:182-188 | the transform is appended |
| MissingInjectable.AngularCoreDecoratorName | packages/compiler-cli/ngcc/src/migrations/missing_injectable_migration.ts:229-235 | the original name exactly for decorators imported from `@angular/core`, `null` otherwise |
| MissingInjectable.PropertyNameText | packages/compiler-cli/ngcc/src/migrations/missing_injectable_migration.ts:88-93 | the text exactly for identifier and string-literal names |
| MissingInjectable.NoneBlocks | packages/compiler-cli/ngcc/src/migrations/missing_injectable_migration.ts:215-222 | true exactly when no decorator is an `@angular/core` Injectable, Directive, Component or Pipe |
| MissingInjectable.NeedsInjectableDecorator | packages/compiler-cli/ngcc/src/migrations/missing_injectable_migration.ts:209-223 | a class needs `@Injectable()` exactly when it has no decorators or none of them is one of those four |
| MissingInjectable.Lookup | packages/compiler-cli/ngcc/src/migrations/missing_injectable_migration.ts:143-144 | the position of the first entry with the key, and none exactly when no entry has it |
| MissingInjectable.MigrateReference | packages/compiler-cli/ngcc/src/migrations/missing_injectable_migration.ts:196-201 | the decorators change only for an in-scope class that needs one, and then `@Injectable()` is appended to it |
| MissingInjectable.MigrateReferencesConcat | packages/compiler-cli/ngcc/src/migrations/missing_injectable_migration.ts:136-151 | migrating two lists of references one after the other equals migrating their concatenation |
| MissingInjectable.MigrateProviderReference | packages/compiler-cli/ngcc/src/migrations/missing_injectable_migration.ts:196-201 | the method does what `MigrateReference` specifies |
| MissingInjectable.MigrateProviders | packages/compiler-cli/ngcc/src/migrations/missing_injectable_migration.ts:136-151 | references, `useClass` of a `provide` map without `deps`, and arrays element by element are migrated in order, as `ProviderReferences` lists them |
| MissingInjectable.SettledStays | packages/compiler-cli/ngcc/src/migrations/missing_injectable_migration.ts:209-223 | a class that no longer needs a decorator stays so when more decorators are injected |
| MissingInjectable.MigrateReferenceSettles | packages/compiler-cli/ngcc/src/migrations/missing_injectable_migration.ts:196-201 | migrating a reference only adds decorators, and afterwards its class needs no more |
| MissingInjectable.MigrateReferencesSettles | packages/compiler-cli/ngcc/src/migrations/missing_injectable_migration.ts:136-151 | after a list of references, every referenced class is settled |
| MissingInjectable.SettledReferencesUnchanged | packages/compiler-cli/ngcc/src/migrations/missing_injectable_migration.ts:196-201 | settled references change nothing |
| MissingInjectable.MigrateProvidersIdempotent | packages/compiler-cli/ngcc/src/migrations/missing_injectable_migration.ts:136-151 | migrating the same providers twice is the same as once |
| MissingInjectable.BlockedClassUnchanged | packages/compiler-cli/ngcc/src/migrations/missing_injectable_migration.ts:209-223 | a class that already has one of the four decorators is never given `@Injectable()` |
| MissingInjectable.InjectedAtMostOnce | packages/compiler-cli/ngcc/src/migrations/missing_injectable_migration.ts:196-201 | a class gets at most one `@Injectable()` from a list of references, however often it is provided |
| MissingInjectable.LiteralTransforms | packages/compiler-cli/ngcc/src/migrations/missing_injectable_migration.ts:165-190 | at most one transform per literal |
| MissingInjectable.LiteralTransformsIff | packages/compiler-cli/ngcc/src/migrations/missing_injectable_migration.ts:171-188 | a transform is added exactly for a literal map with `provide` and none of `useClass`, `useValue`, `useExisting`, `useFactory`, and it appends `useValue: undefined` to that literal |
| MissingInjectable.MigrateLiteralProviders | packages/compiler-cli/ngcc/src/migrations/missing_injectable_migration.ts:165-190 | the loop appends exactly those transforms in order |
| MissingInjectable.MetadataOf | packages/compiler-cli/ngcc/src/migrations/missing_injectable_migration.ts:65-110 | the metadata is the properties of a single object-literal argument, and there is none otherwise |
| MissingInjectable.FindProperty | packages/compiler-cli/ngcc/src/migrations/missing_injectable_migration.ts:74-117 | the initializer of the first property assignment with that name, and none exactly when there is no such assignment |
| MissingInjectable.ProvidersExpressions | packages/compiler-cli/ngcc/src/migrations/missing_injectable_migration.ts:63-130 | nothing without metadata; with metadata, the `providers` initializer when found, followed by the `viewProviders` initializer when the decorator is a component's and it is found, and nothing else |
| MissingInjectable.ExpressionsStep | packages/compiler-cli/ngcc/src/migrations/missing_injectable_migration.ts:78-128 | one more expression appends its literal transforms and its provider references |
| MissingInjectable.MigrateExpressions | packages/compiler-cli/ngcc/src/migrations/missing_injectable_migration.ts:119-129 | the host ends as the specification of the evaluated expressions says, literals before references for each |
| MissingInjectable.MigrateDecoratorProviders | packages/compiler-cli/ngcc/src/migrations/missing_injectable_migration.ts:63-130 | the `providers`/`viewProviders` of one decorator are migrated as specified |
| MissingInjectable.DecoratorExpressions | packages/compiler-cli/ngcc/src/migrations/missing_injectable_migration.ts:44-53 | an `@angular/core` NgModule or Directive contributes its `providers`, a Component its `providers` and `viewProviders`; any other decorator contributes nothing |
| MissingInjectable.TransformsConcat | packages/compiler-cli/ngcc/src/migrations/missing_injectable_migration.ts:44-53 | the transforms of two expression lists concatenate |
| MissingInjectable.ReferencesConcat | packages/compiler-cli/ngcc/src/migrations/missing_injectable_migration.ts:44-53 | the references of two expression lists concatenate |
| MissingInjectable.MigratedCompose | packages/compiler-cli/ngcc/src/migrations/missing_injectable_migration.ts:44-53 | migrating two expression lists one after the other equals migrating their concatenation |
| MissingInjectable.MigrateDecorator | packages/compiler-cli/ngcc/src/migrations/missing_injectable_migration.ts:45-52 | one decorator is migrated according to its `@angular/core` name |
| MissingInjectable.Apply | packages/compiler-cli/ngcc/src/migrations/missing_injectable_migration.ts:37-56 | nothing changes for a class without decorators; otherwise every decorator's providers are migrated, in decorator order |
| UndecoratedFieldsMigration.IsUndecoratedClassWithDecoratedFields | packages/compiler-cli/ngcc/src/migrations/undecorated_class_with_decorated_fields_migration.ts:39-56 | true exactly when the class has no directive decorator and some member is a non-static lifecycle-hook method or carries an Angular field decorator |
| UndecoratedFieldsMigration.Apply | packages/compiler-cli/ngcc/src/migrations/undecorated_class_with_decorated_fields_migration.ts:31-37 | exactly such a class gets an injected `@Directive()`; other classes are left alone |
| UndecoratedFieldsMigration.LifecycleHookMigrates | packages/compiler-cli/ngcc/src/migrations/undecorated_class_with_decorated_fields_migration.ts:22-48 | a non-static lifecycle-hook method is enough to migrate an undecorated class |
| UndecoratedFieldsMigration.FieldDecoratorMigrates | packages/compiler-cli/ngcc/src/migrations/undecorated_class_with_decorated_fields_migration.ts:17-53 | an `@angular/core` field decorator on any member is enough to migrate an undecorated class |
| UndecoratedFieldsMigration.FeaturelessClassNotMigrated | packages/compiler-cli/ngcc/src/migrations/undecorated_class_with_decorated_fields_migration.ts:44-55 | a class with neither is not migrated |
| UndecoratedClassesTransform.IsAbstractDirective | packages/core/schematics/migrations/undecorated-classes-with-decorated-fields/transform.ts:148-163 | a directive without arguments is abstract; one whose first argument is not an object literal or has no `selector` is not; otherwise it is abstract exactly when the selector evaluates to `null` or `undefined` |
| UndecoratedClassesTransform.FindDecorator | packages/core/schematics/migrations/undecorated-classes-with-decorated-fields/transform.ts:133-134 | the first decorator with that name in the list, and none exactly when no decorator has it |
| UndecoratedClassesTransform.AnalyzeClass | packages/core/schematics/migrations/undecorated-classes-with-decorated-fields/transform.ts:127-142 | uses Angular features exactly when a member is a lifecycle hook or has an Angular decorator; a directive or component exactly when one of its Angular decorators is named so; abstract exactly when its `@Directive` is abstract, which implies being a directive |
| UndecoratedClassesTransform.ComponentIsNonAbstract | packages/core/schematics/migrations/undecorated-classes-with-decorated-fields/transform.ts:133-139 | a component without `@Directive` is a directive or component and never abstract |
| UndecoratedClassesTransform.Add | packages/core/schematics/migrations/undecorated-classes-with-decorated-fields/transform.ts:75-97 | `Set.add`: the element is in the result, whose elements are the old ones and it |
| UndecoratedClassesTransform.AddKeepsDistinct | packages/core/schematics/migrations/undecorated-classes-with-decorated-fields/transform.ts:75-78 | adding keeps the elements distinct |
| UndecoratedClassesTransform.CollectMembers | packages/core/schematics/migrations/undecorated-classes-with-decorated-fields/transform.ts:80-101 | after the visit, abstract directives are the abstract ones and the undecorated classes using features; non-abstract directives, the migrated result and the undecorated classes are exactly those of their classification; the result is distinct |
| UndecoratedClassesTransform.VisitFiles | packages/core/schematics/migrations/undecorated-classes-with-decorated-fields/transform.ts:80-101 | visiting one class adds it to exactly the set its classification names, and the result stays distinct |
| UndecoratedClassesTransform.FirstDirectiveBase | packages/core/schematics/migrations/undecorated-classes-with-decorated-fields/transform.ts:106-117 | undecided exactly when no base class is a known directive |
| UndecoratedClassesTransform.FirstDirectiveBaseDecides | packages/core/schematics/migrations/undecorated-classes-with-decorated-fields/transform.ts:106-117 | the first base class that is a known directive decides: a non-abstract one stops the search, an abstract one migrates the class |
| UndecoratedClassesTransform.AddInheritingMembers | packages/core/schematics/migrations/undecorated-classes-with-decorated-fields/transform.ts:105-118 | the result stays distinct and gains exactly the undecorated classes whose first directive base is abstract |
| UndecoratedClassesTransform.MigratedClassesIff | packages/core/schematics/migrations/undecorated-classes-with-decorated-fields/transform.ts:74-121 | a class is migrated exactly when it is visited, is not a directive or component, and either uses Angular features or first inherits from an abstract directive; no class is listed twice |
| UndecoratedClassesTransform.CollectClasses | packages/core/schematics/migrations/undecorated-classes-with-decorated-fields/transform.ts:80-101 | the visiting loop builds exactly `Collect` of the classes |
| UndecoratedClassesTransform.SearchBases | packages/core/schematics/migrations/undecorated-classes-with-decorated-fields/transform.ts:106-117 | the `for`/`break` loop migrates the class exactly when its first directive base is abstract |
| UndecoratedClassesTransform.FindUndecoratedAbstractDirectives | packages/core/schematics/migrations/undecorated-classes-with-decorated-fields/transform.ts:74-121 | the method returns exactly the specified classes, in insertion order |
| UndecoratedClassesTransform.UpdateRecorders.constructor | packages/core/schematics/migrations/undecorated-classes-with-decorated-fields/transform.ts:46-48 | no edit has been recorded |
| UndecoratedClassesTransform.DecoratorEdits | packages/core/schematics/migrations/undecorated-classes-with-decorated-fields/transform.ts:57-65 | one `@Directive()` edit per migrated class, in order, with the class's imported identifier |
| UndecoratedClassesTransform.Migrate | packages/core/schematics/migrations/undecorated-classes-with-decorated-fields/transform.ts:56-66 | the recorders gain exactly those edits |
| UndecoratedClassesTransform.OneDecoratorPerClass | packages/core/schematics/migrations/undecorated-classes-with-decorated-fields/transform.ts:56-66 | every migrated class gets exactly one decorator edit, and no other class gets one |
| SignalBindings.PlaceholdersIndexLast | packages/compiler/src/template/pipeline/src/phases/signal_bindings.ts:27-32 | every binding of a placeholder is indexed, and an indexed binding names the last placeholder op with that binding in the create list |
| SignalBindings.IndexedOpIsPlaceholder | packages/compiler/src/template/pipeline/src/phases/signal_bindings.ts:27-32 | with distinct op ids, the op an index entry names is a placeholder for that binding |
| SignalBindings.RemoveOps | packages/compiler/src/template/pipeline/src/phases/signal_bindings.ts:58-60 | an op survives exactly when it was in the list and its id is not removed |
| SignalBindings.RemoveOpsNothing | packages/compiler/src/template/pipeline/src/phases/signal_bindings.ts:58-60 | removing no op keeps the list |
| SignalBindings.RemoveOpsAgain | packages/compiler/src/template/pipeline/src/phases/signal_bindings.ts:58-60 | removing ops one after another equals removing them together |
| SignalBindings.ReplaceStep | packages/compiler/src/template/pipeline/src/phases/signal_bindings.ts:45-50 | replacing one more placeholder by its property-create op extends the substitution by that binding |
| SignalBindings.ThrowsShift | packages/compiler/src/template/pipeline/src/phases/signal_bindings.ts:37-43 | the throw condition after the first update op is the throw condition of the remaining ops, with that op's binding consumed |
| SignalBindings.MovePropertiesMeaning | packages/compiler/src/template/pipeline/src/phases/signal_bindings.ts:36-53 | the update loop throws exactly when a property op's binding has no placeholder or one already consumed; otherwise each consumed placeholder is replaced by a property-create op with the property's fields and is no longer pending |
| SignalBindings.SubstitutedNothing | packages/compiler/src/template/pipeline/src/phases/signal_bindings.ts:45-50 | substituting nothing keeps the list |
| SignalBindings.ProcessUnitMeaning | packages/compiler/src/template/pipeline/src/phases/signal_bindings.ts:26-61 | a unit fails exactly for signal jobs whose property ops throw; otherwise its create list has the consumed placeholders replaced and every pending placeholder removed |
| SignalBindings.ShadowedPlaceholderKept | packages/compiler/src/template/pipeline/src/phases/signal_bindings.ts:27-60 | a placeholder followed by another with the same binding is never removed: only the last one is indexed |
| SignalBindings.NonSignalRemovesPlaceholders | packages/compiler/src/template/pipeline/src/phases/signal_bindings.ts:36-60 | a non-signal job never fails and only loses its indexed placeholders |
| SignalBindings.CompilationUnit.constructor | packages/compiler/src/template/pipeline/src/phases/signal_bindings.ts:26 | the unit holds its job kind and both op lists |
| SignalBindings.ProcessUnit | packages/compiler/src/template/pipeline/src/phases/signal_bindings.ts:26-61 | the three loops leave the create list and the outcome that `ProcessUnitSpec` specifies |
| SignalBindings.PhaseSignalBindings | packages/compiler/src/template/pipeline/src/phases/signal_bindings.ts:20-24 | every unit is processed in order; on a throw the units before and including the failing one are processed and the later ones untouched; update lists never change |
| InputSignalsMetadataTransform.InputFields | packages/compiler-cli/src/transformers/jit_transforms/input_signals_metadata_transform.ts:99-105 | four fields in order: `ɵisSignal: true`, `alias` as the public name, `required` true exactly for required inputs, `transform: undefined` |
| InputSignalsMetadataTransform.TransformMember | packages/compiler-cli/src/transformers/jit_transforms/input_signals_metadata_transform.ts:81-125 | a member without a signal-input mapping is kept; a mapped property keeps its name, question token, type and initializer, and its modifiers become the single `@core.Input({...})` decorator with those fields |
| InputSignalsMetadataTransform.UnchangedWithoutRewrites | packages/compiler-cli/src/transformers/jit_transforms/input_signals_metadata_transform.ts:53-60 | a tree holding no member to rewrite comes out unchanged |
| InputSignalsMetadataTransform.PropertiesKeptOutsideDirectives | packages/compiler-cli/src/transformers/jit_transforms/input_signals_metadata_transform.ts:54-59 | properties of an unnamed class, or of one without `@Directive`/`@Component`, are not rewritten |
| InputSignalsMetadataTransform.SignalInputsDecorated | packages/compiler-cli/src/transformers/jit_transforms/input_signals_metadata_transform.ts:81-125 | in a directive or component class every signal input is rewritten to carry exactly the `@Input` decorator with its alias and required flag, and every other member is kept |
| InputSignalsMetadataTransform.WithImport | packages/compiler-cli/src/transformers/jit_transforms/input_signals_metadata_transform.ts:113 | the namespace import of the module is registered once, keeping the others |
| InputSignalsMetadataTransform.ImportManager.constructor | packages/compiler-cli/src/transformers/jit_transforms/input_signals_metadata_transform.ts:29 | a new import manager has no imports |
| InputSignalsMetadataTransform.ImportManager.GenerateNamespaceImport | packages/compiler-cli/src/transformers/jit_transforms/input_signals_metadata_transform.ts:113 | the module's namespace import is registered |
| InputSignalsMetadataTransform.VisitClassDeclaration | packages/compiler-cli/src/transformers/jit_transforms/input_signals_metadata_transform.ts:73-136 | the class comes out as specified, and `@angular/core` is imported exactly when one of its members is rewritten |
| InputSignalsMetadataTransform.VisitNode | packages/compiler-cli/src/transformers/jit_transforms/input_signals_metadata_transform.ts:53-60 | the visitor rewrites a named directive or component class and otherwise visits the children, importing `@angular/core` exactly when something is rewritten |
| InputSignalsMetadataTransform.VisitMembers | packages/compiler-cli/src/transformers/jit_transforms/input_signals_metadata_transform.ts:59 | in a class that is not transformed, properties are kept, the nodes under other members are visited, and the import is requested exactly when one of those nodes is rewritten |
| InputSignalsMetadataTransform.VisitNodes | packages/compiler-cli/src/transformers/jit_transforms/input_signals_metadata_transform.ts:59 | each child is visited in order, and the import is requested exactly when some child rewrites |
| InputSignalsMetadataTransform.TransformSourceFile | packages/compiler-cli/src/transformers/jit_transforms/input_signals_metadata_transform.ts:27-43 | the file is the visited tree, and `@angular/core` is added as an import exactly when some member was rewritten |
| PartialCompilationTsconfig.SuffixesExclusive | packages/bazel/src/ng_module/create_partial_compilation_tsconfig.js:18 | a name never ends in both `.js` and `.mjs` |
| PartialCompilationTsconfig.PartialOutputName | packages/bazel/src/ng_module/create_partial_compilation_tsconfig.js:18 | a `.js` or `.mjs` suffix is replaced by `.ivy-partial.js`; any other name is kept |
| PartialCompilationTsconfig.PartialOutputNameStem | packages/bazel/src/ng_module/create_partial_compilation_tsconfig.js:18 | a renamed output keeps its stem and ends in `.ivy-partial.js` |
| PartialCompilationTsconfig.PartialOutputNameNotIdempotent | packages/bazel/src/ng_module/create_partial_compilation_tsconfig.js:18 | renaming is not idempotent: for every `.js` or `.mjs` name, a second rename adds another `.ivy-partial`, 12 characters longer |
| PartialCompilationTsconfig.RenamedOutputs | packages/bazel/src/ng_module/create_partial_compilation_tsconfig.js:17-18 | the outputs keep their number and order, each renamed |
| PartialCompilationTsconfig.AngularCompilerOptions.constructor | packages/bazel/src/ng_module/create_partial_compilation_tsconfig.js:13 | the options object holds the tsconfig's properties |
| PartialCompilationTsconfig.AngularCompilerOptions.MakePartial | packages/bazel/src/ng_module/create_partial_compilation_tsconfig.js:15-18 | `enableIvy` and `compilationMode` are set first; the call succeeds exactly when `expectedOut` is an array of strings, which is then renamed |
| PartialCompilationTsconfig.PartialTsconfig | packages/bazel/src/ng_module/create_partial_compilation_tsconfig.js:11-22 | a tsconfig is written exactly when `angularCompilerOptions` is an object whose `expectedOut` is an array of strings, and it is the input with those options rewritten |
| PartialCompilationTsconfig.PartialOptionsMeaning | packages/bazel/src/ng_module/create_partial_compilation_tsconfig.js:13-21 | the rewrite sets the two flags, renames every expected output in place and changes no other property of the options or of the tsconfig |
| Strings.NatToStringRoundTrip | packages/core/schematics/migrations/signal-migration/metadata_extraction/passes/3_migrate_ts_references.ts:45 | the decimal text used in `__tmp${id}` reads back as the same number |
| Strings.NatToStringInjective | packages/core/schematics/migrations/signal-migration/metadata_extraction/passes/3_migrate_ts_references.ts:72 | distinct indices within one input's group of accesses give distinct `__tmp` names |
| Strings.Spaces | packages/core/schematics/migrations/signal-migration/metadata_extraction/passes/3_migrate_ts_references.ts:66 | the indentation string has exactly the requested length and holds only spaces |

## Left out

- The migration driver (`packages/core/schematics/migrations/signal-migration/metadata_extraction/index.ts`) and the order in which it runs the passes are not modelled. Each pass is modelled on the inputs the driver hands it.
- The `console.error` in `input_decorator.ts` is an I/O side effect. The model keeps only the resulting "no metadata" outcome.
- The reading and writing of the tsconfig file, and `JSON.stringify`'s formatting, are file I/O. `PartialCompilationTsconfig.PartialTsconfig` models the step between the read and the write.
- The TypeScript printer's exact output text is not modelled. The printed text of the migrated ngcc and schematic decorators, and of the inserted imports, is represented by the decorator records the code builds.
- MagicString is not part of this model. `Replacements.TextBuffer` keeps, per original character, whether it survives and, per position, the text `appendLeft` put there (the outro of the chunk ending at that position, or the intro at position 0). `remove` blanks the outros of the chunks it removes. Prepending, moving and the library's range errors are not modelled.
- Positions, columns and line starts count UTF-16 code units, as TypeScript and MagicString do: one modelled character stands for one code unit. This matters for `MigrateTsReferences.LineStart` and `MigrateTsReferences.ColumnSpan`.
- `MigrationResult.serialize` does nothing in the source (`result.ts` lines 21-23), so it has no member.
- `debugFlowFlags` is a debugging helper that formats flag names, so it is left out.
- These services are parameters (oracles) of the model, specified only by what their callers rely on:
  - the TypeScript type checker and template type checker;
  - the partial evaluator, the reflection host and the metadata readers;
  - `parseDecoratorInputTransformFunction` and `tryParseSignalInputMapping` (the parsed transform says whether its node is an expression, which `ts.isExpression` decides in the source);
  - `findBaseClassDeclarations` and `getAngularDecorators`;
  - `path.relative`;
  - the diagnostic constructors `makeDiagnostic` and `makeDuplicateDeclarationError`;
  - the import manager's choice of identifier names.
- InputIds.GetInputId: the `${node}` interpolation of a node into the id text is a `show` parameter.
- The flow container's `nodes` list is never read by the modelled code, so it is not modelled.
- Pass 2 receives the known-inputs registry as a map snapshot: it only reads it.
- Class ids are ordered with every base class before its subclasses, so the model has no cyclic heritage. TypeScript rejects such cycles before the migration runs.
- MigrateTsReferences.MigrateTypeScriptReferences: a `__tmpN` name that collides with an existing identifier is kept as the source writes it. So is a collision between groups: the `N` of `__tmpN` is the index within one input's accesses (`flow_analysis/index.ts` line 56), so two inputs narrowed in the same block both declare `const __tmp0`. A pass that stops at an error leaves the replacements recorded so far (`Pass3Attempted`), as the source does.
- `packages/compiler-cli/ngcc/src/migrations/migration.ts` and `packages/compiler-cli/ngcc/src/migrations/utils.ts` are not part of this model. Their behaviour is taken from their names and call sites:
  - `createInjectableDecorator`, `createDirectiveDecorator`, `hasDirectiveDecorator` and `isAngularDecorator`;
  - `getAllDecorators` returns the declared decorators followed by the injected ones.
- MissingInjectable.Lookup: a `Map` value's entries may repeat a key, and `Lookup` reads the first entry with it. The partial evaluator builds a JavaScript `Map` with `set`, which never repeats a key and keeps the value set last. So a model value with a repeated key has no counterpart in the source; an object literal that repeats a property name corresponds to entries that hold only the last value.
- NgccMigrationHost.MigrationHost: a JavaScript `Map` is an association list kept in insertion order.
- AnnotationDiagnostics.GetProviderDiagnostics: the `providerClasses` `Set` is a sequence in iteration order, and nothing requires its elements to be distinct. A repeated element yields a repeated diagnostic. The source's `Set` holds distinct `Reference` objects, although two of them may refer to the same class.
- The migrations' `apply` always returns `null`, so the model's apply methods return nothing.
- UndecoratedClassesTransform: the order in which classes are visited is an input. The schematic's post-order `forEachChild` walk that produces it is not modelled.
- TemplateReferences.TemplateExpressionReferenceVisitor.VisitTemplateExpression, TemplateReferences.TemplateExpressionReferenceVisitor.Visit, TemplateReferences.TemplateExpressionReferenceVisitor.VisitPropertyRead, TemplateReferences.TemplateExpressionReferenceVisitor.VisitPropertyWrite and TemplateReferences.TemplateReferenceVisitor.VisitNodes follow the corrected visit of the first Findings row, which also visits receivers and written values. As written, the visitor records only the outermost accesses: that is `TemplateReferences.ExprRefsAsWritten`.
- TemplateReferences.TemplateExpressionReferenceVisitor.VisitPropertyRead: visits the receiver after its own record, which the source as written does not (see the line above).
- TemplateReferences.TemplateExpressionReferenceVisitor.VisitPropertyWrite: visits the receiver and the written value after its own record, which the source as written does not (see the line above).
- TemplateReferences.TemplateExpressionReferenceVisitor.Visit: same as the line above.
- TemplateReferences.TemplateReferenceVisitor.VisitNodes: same as the line above.
- SourceReferences.AccessParent, SourceReferences.IdentifyPotentialTypeScriptReference, SourceReferences.VisitNode, SourceReferences.IdentifySourceFileReferences and SourceReferences.IncompatibleOnlyWhenWritten use the corrected write test of the second Findings row. As written, line 74 inspects `SourceReferences.AccessParentAsWritten`, which misses an `=` reached through parentheses or `as` expressions.
- SourceReferences.IdentifyPotentialTypeScriptReference: same as the line above.
- SourceReferences.VisitNode: same as the line above.
- SourceReferences.IdentifySourceFileReferences: same as the line above.
- SourceReferences.IncompatibleOnlyWhenWritten: same as the line above.
- SignalInputConversion.ConvertToSignalInput: the assertion's message is the transform node's source text, which the model does not carry, so the error holds a fixed message instead. The printed declaration text is left to the printer parameter.
- IdentifyInputs.IdentifySourceFileAndDeclarationInputs and SourceReferences.IdentifySourceFileReferences take the walk's nodes as a list: `Ast.DescendantWalk` requires it to hold every node below the file once, in ascending id order. Ids are pre-order numbers, so that order is the pre-order of `ts.forEachChild`. Well-formedness enforces only that a parent precedes its children, not that ids are pre-order.
- SignalBindings: ops are identified by ids. The new property op takes the id of the op it replaces.
- InputSignalsMetadataTransform: a class that is not transformed is visited only through its members, and the nodes under a property declaration (its type and initializer) are not modelled. Its decorators, name, type parameters and heritage clauses stand behind the class's `id` and are not visited. So a class declared inside a function or class expression in a property initializer, a decorator argument or an `extends` clause of a class that is not itself transformed is not reached, whereas the source's `visitEachChild` would reach it. A transformed class is not visited further, in the model as in the source.
- PartialCompilationTsconfig: an `angularCompilerOptions` that is a primitive or an array is treated as a throwing case, like a missing one.
- Integers are unbounded: node positions, ids and counters in the source are JavaScript numbers, far below 2^53 in practice.
- The rest of the repository is not part of this model, including the reactive signal runtime.

## Findings

| source | as written | input that shows it | evidently intended | confidence | as-written member | corrected member |
|---|---|---|---|---|---|---|
| packages/core/schematics/migrations/signal-migration/metadata_extraction/template_reference_visitor.ts:77-82 | `visitPropertyRead`/`visitPropertyWrite` inspect the access but never visit its receiver (nor a write's value), so accesses nested inside another access are not seen | `{{ myInput.length }}` on a component with input `myInput`: no reference is recorded | inspect the access, then visit its receiver and value as `RecursiveAstVisitor` does | not executed; high | TemplateReferences.NestedReadMissedAsWritten | TemplateReferences.EveryAccessInspected |
| packages/core/schematics/migrations/signal-migration/metadata_extraction/passes/2_find_source_file_references.ts:74 | `unwrapParent(traverseAccess(node).parent)` starts unwrapping at the access's parent instead of at the access: when that parent is a wrapper it returns the outermost wrapper itself, and when the parent is an `=` inside parentheses it climbs past the `=` to the parenthesis, so both writes are missed | `(this.myInput) = 1;`, and also `x = (this.myInput = 1);` (`SourceReferences.AssignmentInParenthesesMissedAsWritten`): the input is not marked incompatible | the first ancestor of the access that is not a parenthesis or `as` expression | not executed; medium | SourceReferences.ParenthesizedAssignmentMissedAsWritten | SourceReferences.AccessParentIsFirstNonWrapper |
