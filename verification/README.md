# Bean property path extension — a Dafny model

typescript-generator turns Java classes into TypeScript declarations. Its
`BeanPropertyPathExtension` adds runtime code to that output. For every bean
of the model, the extension writes a "fields" class whose members are
path builders. A chain of the field objects these classes construct answers
`get()` with the dotted path of its property names, such as
`"owner.address"`.

The extension writes four things, in this order:

1. A blank line, then the 15 lines of the base class `Fields`, with every
   four-space run replaced by the configured indent.
2. For every bean in model order, a `class <Simple>Fields extends ... {` block.
   A bean's resolved parent's block is written before the bean's own block.
   A set of already-emitted beans guarantees that no block is written twice.
3. Inside each block, a forwarding constructor and one builder field per
   property, in declared order.
4. One constant per bean: `const <Simple> = new <Simple>Fields();`. It is
   prefixed with `export ` when the export keyword is requested.

The model is functional:

- Beans are a sequence. A bean is referred to by its index.
- Type references are a datatype with a plain and a generic case. Structural
  equality stands in for Java `equals`.
- The writer is the returned sequence of lines.
- The set of emitted beans is a set of indices.

Modules:

- `Wrappers`: `Option`.
- `Text`: the four-space unit and Java's left-to-right `String.replace` of it.
- `FieldsTemplate`: the base class template and its emission.
- `PathGetter`: the `get()` method of the emitted `Fields` class, evaluated on
  a chain of field objects built by the constructors.
- `BeanModel`: beans, type lookup, simple names, parent links and the depth of
  the inheritance chain.
- `PathExtension`: the class blocks, the recursive ancestor-first writer, the
  pass over all beans, the constants, and the whole `emitElements` output.
- `Scenarios`: worked examples over concrete models.

The writer's output is proved equal to the class blocks of two reference
orders, `ChainOrder` for one call of the recursive writer and `PassOrder` for
the whole loop. What these orders are is stated independently by the
predicates `ChainShape` and `PassShape`: only beans not yet emitted, no
duplicates, every resolved parent before its child, and, for the pass, every
bean covered. The whole pass is proved to write a permutation of all beans.
Every class that a field line or a constant instantiates is proved to be
declared before the first constant.

An unresolved property type gives an empty class-name prefix. The field line
then reads `new Fields(this, "<name>")`, which instantiates the base class
that the template's first line declares (line 53). The model keeps this
output exactly.

Source paths in the table are relative to the repository root.

## Model

| member | source | states |
|---|---|---|
| Text.ReplaceUnit | typescript-generator-core/src/main/java/cz/habarta/typescript/generator/ext/BeanPropertyPathExtension.java:70 | With an indent as wide as the four-space unit, a line keeps its length. For indents of any width, `ReplaceUnitKeepsDepth` states what the replacement keeps. |
| Text.ReplaceUnitByUnit | typescript-generator-core/src/main/java/cz/habarta/typescript/generator/ext/BeanPropertyPathExtension.java:70 | Replacing the four-space run by the same four spaces changes no line. |
| Text.ReplaceUnitWithoutUnit | typescript-generator-core/src/main/java/cz/habarta/typescript/generator/ext/BeanPropertyPathExtension.java:70 | A line containing no four-space run is returned unchanged, whatever the indent. |
| Text.ReplaceUnitInLinesIdentity | typescript-generator-core/src/main/java/cz/habarta/typescript/generator/ext/BeanPropertyPathExtension.java:69-71 | With the default indent, the per-line replacement over any list of lines is the identity. |
| Text.ReplaceLeadingUnit | typescript-generator-core/src/main/java/cz/habarta/typescript/generator/ext/BeanPropertyPathExtension.java:70 | A leading four-space run becomes one indent, and the rest of the line is replaced independently. |
| Text.ReplaceUnitKeepsDepth | typescript-generator-core/src/main/java/cz/habarta/typescript/generator/ext/BeanPropertyPathExtension.java:70 | A line made of k four-space runs followed by text without a four-space run becomes k indents followed by the same text. Nesting depth is therefore preserved for any indent string. |
| FieldsTemplate.EmitFieldsClass | typescript-generator-core/src/main/java/cz/habarta/typescript/generator/ext/BeanPropertyPathExtension.java:51-72 | The output is one blank line followed by exactly the 15 template lines in order, each with its four-space runs replaced by the indent. |
| FieldsTemplate.FieldsClassVerbatim | typescript-generator-core/src/main/java/cz/habarta/typescript/generator/ext/BeanPropertyPathExtension.java:52-70 | With the default four-space indent, the template is reproduced verbatim after the blank line. |
| FieldsTemplate.TemplateConstructorLine | typescript-generator-core/src/main/java/cz/habarta/typescript/generator/ext/BeanPropertyPathExtension.java:56 | The template's constructor line is one four-space unit, the signature `constructor(parent?: Fields, name?: string)`, and an opening brace. |
| FieldsTemplate.BaseClassLine | typescript-generator-core/src/main/java/cz/habarta/typescript/generator/ext/BeanPropertyPathExtension.java:53-70 | The opening line `class Fields {` holds no four-space run, so it is written unchanged whatever the indent. |
| PathGetter.Get | typescript-generator-core/src/main/java/cz/habarta/typescript/generator/ext/BeanPropertyPathExtension.java:60-65 | `get()` returns a present, non-empty path exactly when some name along the parent chain is present and non-empty. Otherwise it returns the object's own name, absent or empty. `GetIsPathOfSegments` gives its full value. |
| PathGetter.Field | typescript-generator-core/src/main/java/cz/habarta/typescript/generator/ext/BeanPropertyPathExtension.java:56-58 | A builder field created as `new XFields(this, "name")` has its owner as parent and the property name as name. |
| PathGetter.PathOfSnoc | typescript-generator-core/src/main/java/cz/habarta/typescript/generator/ext/BeanPropertyPathExtension.java:60-65 | The reference path of a segment list extended by one segment follows `get()`'s step. A present, non-empty name is appended with a dot after a present, non-empty prefix. An absent or empty name keeps the prefix. An absent or empty prefix yields the name. |
| PathGetter.GetIsPathOfSegments | typescript-generator-core/src/main/java/cz/habarta/typescript/generator/ext/BeanPropertyPathExtension.java:60-65 | `get()` on any field object equals the reference path: the dot-join of the non-empty names along its parent chain from the root, or nothing when every name is absent or empty. |
| PathGetter.Chain | typescript-generator-core/src/main/java/cz/habarta/typescript/generator/ext/BeanPropertyPathExtension.java:56-58 | Building field objects on top of a start object yields an object whose segment list is the start's segments followed by the given names. |
| PathGetter.ChainFromRootJoinsNames | typescript-generator-core/src/main/java/cz/habarta/typescript/generator/ext/BeanPropertyPathExtension.java:24-26 | From a nameless root, a chain of non-empty names gives `get()` equal to the names joined by dots, or nothing when there are no names. |
| PathGetter.FieldPathExample | typescript-generator-core/src/main/java/cz/habarta/typescript/generator/ext/BeanPropertyPathExtension.java:24-26 | The chain root, `field1`, `field2` gives `"field1.field2"`. |
| PathGetter.AbsentSegmentExample | typescript-generator-core/src/main/java/cz/habarta/typescript/generator/ext/BeanPropertyPathExtension.java:61-62 | An intermediate object with no name is skipped: `a`, absent, `c` gives `"a.c"`. |
| BeanModel.SimpleName | typescript-generator-core/src/main/java/cz/habarta/typescript/generator/ext/BeanPropertyPathExtension.java:118-122 | The simple name of a generic reference is its symbol. The simple name of a plain type is its text. |
| BeanModel.SimpleNameIgnoresArguments | typescript-generator-core/src/main/java/cz/habarta/typescript/generator/ext/BeanPropertyPathExtension.java:113-122 | Two generic references with the same symbol have the same simple name, whatever their type arguments. |
| BeanModel.FindFrom | typescript-generator-core/src/main/java/cz/habarta/typescript/generator/ext/BeanPropertyPathExtension.java:105-110 | The scan from a position returns the first later bean whose name equals the type. It returns nothing if and only if no bean from that position on has that name. |
| BeanModel.Lookup | typescript-generator-core/src/main/java/cz/habarta/typescript/generator/ext/BeanPropertyPathExtension.java:104-111 | Lookup returns the first bean whose name equals the type. It returns nothing if and only if no bean has that name. |
| BeanModel.ParentOf | typescript-generator-core/src/main/java/cz/habarta/typescript/generator/ext/BeanPropertyPathExtension.java:83 | The parent bean is the first bean named by the parent type. There is none if and only if the parent type is absent or matches no bean. |
| BeanModel.AncestorCountMonotone | typescript-generator-core/src/main/java/cz/habarta/typescript/generator/ext/BeanPropertyPathExtension.java:83-86 | Once the ancestor chain is measured within some step bound, a larger bound gives the same count. |
| BeanModel.DepthOfParent | typescript-generator-core/src/main/java/cz/habarta/typescript/generator/ext/BeanPropertyPathExtension.java:83-86 | A bean has no resolved parent if and only if its depth is zero. Otherwise its parent's depth is exactly one less, so the parent recursion terminates on acyclic models. |
| BeanModel.ParentIsShallower | typescript-generator-core/src/main/java/cz/habarta/typescript/generator/ext/BeanPropertyPathExtension.java:83-85 | A resolved parent is strictly shallower than its child, which is why the parent recursion terminates. |
| BeanModel.Ancestor | typescript-generator-core/src/main/java/cz/habarta/typescript/generator/ext/BeanPropertyPathExtension.java:83-85 | The k-th ancestor reached by repeated parent resolution is a bean of the model. |
| BeanModel.AncestorIsShallower | typescript-generator-core/src/main/java/cz/habarta/typescript/generator/ext/BeanPropertyPathExtension.java:83-86 | The k-th ancestor (k > 0) is exactly k levels shallower, and no bean is its own ancestor. |
| PathExtension.PropertyLine | typescript-generator-core/src/main/java/cz/habarta/typescript/generator/ext/BeanPropertyPathExtension.java:124-131 | A field line is `indent + name + " = new " + S + "Fields(this, \"" + name + "\");"`. S is the simple name of the first bean matching the property type, or empty when none matches. |
| PathExtension.Header | typescript-generator-core/src/main/java/cz/habarta/typescript/generator/ext/BeanPropertyPathExtension.java:87-92 | The header is `class <Simple>Fields extends <P>Fields {` when the parent resolves to bean P. It is `... extends Fields {` when the parent is absent or unresolved. |
| PathExtension.ConstructorLine | typescript-generator-core/src/main/java/cz/habarta/typescript/generator/ext/BeanPropertyPathExtension.java:93-94 | Every generated constructor repeats the base constructor's signature from template line 56 at the configured indent. Its body passes both arguments on to `super`. |
| PathExtension.ClassBlock | typescript-generator-core/src/main/java/cz/habarta/typescript/generator/ext/BeanPropertyPathExtension.java:90-98 | A class block has exactly 4 + \|properties\| lines: a blank line, the header, the constructor line, one field line per property in declared order, and `}`. |
| PathExtension.BlocksAppend | typescript-generator-core/src/main/java/cz/habarta/typescript/generator/ext/BeanPropertyPathExtension.java:42-45 | Writing the blocks of two orders in turn gives the blocks of their concatenation. |
| PathExtension.ChainOrder | typescript-generator-core/src/main/java/cz/habarta/typescript/generator/ext/BeanPropertyPathExtension.java:78-102 | The blocks one call writes satisfy `ChainShape`: a duplicate-free list of beans not yet emitted. The list is empty if the bean was already emitted; otherwise it ends with the bean. Each element is the resolved parent of the next. The first element has no parent, or its parent was already emitted. |
| PathExtension.ChainStep | typescript-generator-core/src/main/java/cz/habarta/typescript/generator/ext/BeanPropertyPathExtension.java:84-92 | Appending a bean to its parent's chain keeps that shape, so the recursion on the parent followed by the bean's own block is a valid chain. |
| PathExtension.ChainOrderIsAncestors | typescript-generator-core/src/main/java/cz/habarta/typescript/generator/ext/BeanPropertyPathExtension.java:83-86 | Every element of that list is an ancestor of the bean, at a distance equal to its distance from the end of the list. |
| PathExtension.WriteBeanAndParents | typescript-generator-core/src/main/java/cz/habarta/typescript/generator/ext/BeanPropertyPathExtension.java:78-102 | The recursive writer writes exactly the blocks of the reference chain, in chain order. It returns exactly the set of beans in the chain. For an already-emitted bean it writes and returns nothing. Otherwise the returned set contains the bean and is disjoint from the emitted set. |
| PathExtension.ChainParentsFirst | typescript-generator-core/src/main/java/cz/habarta/typescript/generator/ext/BeanPropertyPathExtension.java:83-92 | In one call's output, every resolved parent is either already emitted or written earlier in the same call. |
| PathExtension.ConcatParentsFirst | typescript-generator-core/src/main/java/cz/habarta/typescript/generator/ext/BeanPropertyPathExtension.java:42-45 | Parents-first is kept when the loop appends one call's output, with the emitted set grown by what came before. |
| PathExtension.PassOrder | typescript-generator-core/src/main/java/cz/habarta/typescript/generator/ext/BeanPropertyPathExtension.java:41-45 | The loop from a position writes a duplicate-free list of beans not yet emitted. It covers every bean from that position on that was not already emitted. Every resolved parent comes before its child or was already emitted. |
| PathExtension.PassStep | typescript-generator-core/src/main/java/cz/habarta/typescript/generator/ext/BeanPropertyPathExtension.java:42-45 | One loop iteration keeps the pass's shape: the chain of bean `from` followed by a valid order for the later beans, with the emitted set grown by the chain, is a valid order from `from` on. |
| PathExtension.EmitBeans | typescript-generator-core/src/main/java/cz/habarta/typescript/generator/ext/BeanPropertyPathExtension.java:41-45 | The loop's lines are exactly the blocks of the reference pass order. Its final emitted set is the initial set plus the beans of that order. |
| PathExtension.ConstantLine | typescript-generator-core/src/main/java/cz/habarta/typescript/generator/ext/BeanPropertyPathExtension.java:133-136 | The constant is `const <Simple> = new <Simple>Fields();`, prefixed with `export ` exactly when the keyword is requested. |
| PathExtension.ConstantLines | typescript-generator-core/src/main/java/cz/habarta/typescript/generator/ext/BeanPropertyPathExtension.java:46-48 | There is exactly one constant line per bean, in model order. |
| PathExtension.EmitElements | typescript-generator-core/src/main/java/cz/habarta/typescript/generator/ext/BeanPropertyPathExtension.java:38-49 | The output is the template section, then the class blocks in the reference pass order, then the constants. |
| PathExtension.EmptyModelEmitsOnlyFieldsClass | typescript-generator-core/src/main/java/cz/habarta/typescript/generator/ext/BeanPropertyPathExtension.java:38-49 | With no beans, the output is only the template section. With the default indent, that is a blank line and the 15 literal template lines. |
| PathExtension.OrderIsPermutation | typescript-generator-core/src/main/java/cz/habarta/typescript/generator/ext/BeanPropertyPathExtension.java:41-45 | The whole pass writes every bean's block exactly once: the order has one entry per bean, has no duplicates, and covers all indices. The final emitted set holds all beans. |
| PathExtension.ParentPrecedesChildInOrder | typescript-generator-core/src/main/java/cz/habarta/typescript/generator/ext/BeanPropertyPathExtension.java:83-86 | Whenever a bean's parent resolves, the parent's position in the pass order is strictly before the child's. |
| PathExtension.OrderBlockInOutput | typescript-generator-core/src/main/java/cz/habarta/typescript/generator/ext/BeanPropertyPathExtension.java:39-45 | The k-th block of the pass order occupies the output starting at the line after the template and the earlier blocks. |
| PathExtension.ParentBlockPrecedesChild | typescript-generator-core/src/main/java/cz/habarta/typescript/generator/ext/BeanPropertyPathExtension.java:83-92 | In the full output, the parent's whole class block lies before the first line of the child's block. |
| PathExtension.InOrder | typescript-generator-core/src/main/java/cz/habarta/typescript/generator/ext/BeanPropertyPathExtension.java:41-45 | Every bean of the model has a place in the pass order. |
| PathExtension.HeaderAt | typescript-generator-core/src/main/java/cz/habarta/typescript/generator/ext/BeanPropertyPathExtension.java:90-92 | The header of the k-th block of the pass order is the line after that block's start, and it comes before the first constant. |
| PathExtension.HeaderDeclares | typescript-generator-core/src/main/java/cz/habarta/typescript/generator/ext/BeanPropertyPathExtension.java:91-92 | The header of a bean's block declares the class `<Simple>Fields` named after that bean. |
| PathExtension.BeanClassDeclared | typescript-generator-core/src/main/java/cz/habarta/typescript/generator/ext/BeanPropertyPathExtension.java:38-49 | Every bean's class `<Simple>Fields` is declared by some line of the output before the first constant. |
| PathExtension.BaseClassDeclared | typescript-generator-core/src/main/java/cz/habarta/typescript/generator/ext/BeanPropertyPathExtension.java:53-70 | The output declares the base class `Fields` on its second line, before the first constant, whatever the indent. |
| PathExtension.FieldClassDeclared | typescript-generator-core/src/main/java/cz/habarta/typescript/generator/ext/BeanPropertyPathExtension.java:124-131 | The class a field line instantiates is declared before the first constant. That class is the resolved bean's `<S>Fields`, or `Fields` when the type resolves to no bean. |
| PathExtension.ConstantAt | typescript-generator-core/src/main/java/cz/habarta/typescript/generator/ext/BeanPropertyPathExtension.java:46-48 | The j-th constant is the line after the template, all class blocks and the j earlier constants. |
| PathExtension.ConstantClassDeclared | typescript-generator-core/src/main/java/cz/habarta/typescript/generator/ext/BeanPropertyPathExtension.java:133-136 | The j-th constant sits at its line, and the class `<Simple>Fields` it instantiates is declared on an earlier line. |
| Scenarios.SingleBeanOrder | typescript-generator-core/src/main/java/cz/habarta/typescript/generator/ext/BeanPropertyPathExtension.java:41-45 | A single root bean is acyclic, and the pass writes exactly its block. |
| Scenarios.SingleBeanHeader | typescript-generator-core/src/main/java/cz/habarta/typescript/generator/ext/BeanPropertyPathExtension.java:87-92 | A root bean `Animal` gets `class AnimalFields extends Fields {`. |
| Scenarios.SingleBeanField | typescript-generator-core/src/main/java/cz/habarta/typescript/generator/ext/BeanPropertyPathExtension.java:127-130 | A `name: string` property, whose type matches no bean, gives `    name = new Fields(this, "name");`. |
| Scenarios.SingleBeanBlock | typescript-generator-core/src/main/java/cz/habarta/typescript/generator/ext/BeanPropertyPathExtension.java:90-98 | The complete five-line block of `Animal`. |
| Scenarios.SingleBeanConstant | typescript-generator-core/src/main/java/cz/habarta/typescript/generator/ext/BeanPropertyPathExtension.java:133-136 | Without the export keyword, the constant is `const Animal = new AnimalFields();`. |
| Scenarios.SingleBeanScenario | typescript-generator-core/src/main/java/cz/habarta/typescript/generator/ext/BeanPropertyPathExtension.java:38-49 | The complete output for the one-bean model. |
| Scenarios.AnimalLookup | typescript-generator-core/src/main/java/cz/habarta/typescript/generator/ext/BeanPropertyPathExtension.java:104-111 | In `[Dog, Animal]`, the type `Animal` resolves to the second bean. |
| Scenarios.ParentListedLaterOrder | typescript-generator-core/src/main/java/cz/habarta/typescript/generator/ext/BeanPropertyPathExtension.java:83-86 | When the child `Dog` is listed before its parent `Animal`, the parent's block is written first and only once: the order is `[1, 0]`. |
| Scenarios.DogHeader | typescript-generator-core/src/main/java/cz/habarta/typescript/generator/ext/BeanPropertyPathExtension.java:87-92 | `Dog` gets `class DogFields extends AnimalFields {`. |
| Scenarios.DogField | typescript-generator-core/src/main/java/cz/habarta/typescript/generator/ext/BeanPropertyPathExtension.java:127-130 | A property typed by a bean uses that bean's builder: `    owner = new AnimalFields(this, "owner");`. |
| Scenarios.ParentListedLaterScenario | typescript-generator-core/src/main/java/cz/habarta/typescript/generator/ext/BeanPropertyPathExtension.java:78-102 | Collects the order, header and field facts of the two-bean model. |

## Left out

- `getFeatures` (lines 30-35) is left out. It only sets a constant flag.
- `EmitterExtension` is an abstract base class with no logic of its own. Its `Writer` interface is modelled as the returned list of lines.
- Of the settings, only the indent string is modelled. The rest of the settings object is not part of this model.
- Rendering of types other than the generic symbol is modelled as the plain type's text. The TypeScript type algebra is not part of this model.
- Java `HashSet`, `equals` and `hashCode` identity is replaced by bean indices and structural equality of type references.
- Parent cycles: the source recurses forever on a cyclic model. The model requires `Acyclic`, which means every bean reaches a parentless or unresolved ancestor within as many steps as there are beans. The converse is not proved: that every cycle-free parent graph satisfies `Acyclic` would need a pigeonhole argument.
- FieldsTemplate.EmitFieldsClass: the depth-preservation fact is proved generally (`Text.ReplaceUnitKeepsDepth`). It is not instantiated for each of the 15 template lines, because the solver does not decompose long string literals character by character.
- Scenarios.SingleBeanScenario: the constructor line is stated as `ConstructorLine(Unit)` rather than as a spelled-out literal, for the same reason.
- PathGetter.Get: only field objects built by the constructors are modelled. A bean property called `parent`, `name` or `get` becomes a subclass field of the same name as a member of `Fields`. TypeScript initialises that field after `super` returns, so it overwrites the inherited member. For `name` and `get` the field also clashes with the type of the base member, which the TypeScript compiler rejects. For such a bean, `get()` on the constant's fields does not give the dotted path (`Animal.name.get()` evaluates to `"[object Object].name"`). The model does not cover these chains.
- Executing the generated TypeScript is not modelled, beyond the `get()` method of the `Fields` template. JavaScript truthiness appears only as "absent or empty string is falsy".
- Unused imports of the source file carry no behaviour.
